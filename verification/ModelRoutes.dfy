/** The compiled routing plan: which accounts a model may use, and in which order. */
module ModelRoutes {
  import opened Text

  type Id = nat

  datatype Policy = Policy(exactModels: seq<string>, prefixes: seq<string>, segments: seq<seq<Id>>)

  datatype Plan = Plan(defaultRoute: seq<seq<Id>>, policies: seq<Policy>)

  predicate MatchesExactly(p: Policy, model: string) { model in p.exactModels }

  predicate MatchesPrefix(p: Policy, model: string) { exists x :: x in p.prefixes && x <= model }

  function First(policies: seq<Policy>, matches: Policy -> bool): (found: Option<Policy>)
    ensures found.None? <==> forall p :: p in policies ==> !matches(p)
    ensures found.Some? ==>
              exists i :: 0 <= i < |policies| && policies[i] == found.value && matches(policies[i])
                          && forall j :: 0 <= j < i ==> !matches(policies[j])
  {
    if policies == [] then None
    else if matches(policies[0]) then Some(policies[0])
    else
      var rest := First(policies[1..], matches);
      assert rest.Some? ==> forall i :: 0 <= i < |policies| - 1 ==> policies[1..][i] == policies[i + 1];
      rest
  }

  function Flatten(segments: seq<seq<Id>>): seq<Id> {
    if segments == [] then [] else segments[0] + Flatten(segments[1..])
  }

  /** The ordered candidates for a model, or none when the whole pool is open to it. */
  function Candidates(plan: Option<Plan>, model: Option<string>): Option<seq<Id>> {
    if model.None? || Trim(model.value) == [] || plan.None? then None
    else
      var m := Trim(model.value);
      var exact := First(plan.value.policies, p => MatchesExactly(p, m));
      var prefix := First(plan.value.policies, p => MatchesPrefix(p, m));
      var segments := if exact.Some? then exact.value.segments
                      else if prefix.Some? then prefix.value.segments
                      else plan.value.defaultRoute;
      var ids := Flatten(segments);
      if ids == [] then None else Some(ids)
  }

  /** The route a plan gives to its i-th policy, or to no policy at all. */
  function RouteOf(segments: seq<seq<Id>>): Option<seq<Id>> {
    if Flatten(segments) == [] then None else Some(Flatten(segments))
  }

  /** The candidates of a route are its segments' accounts, in order. */
  lemma {:induction false} FlattenJoins(a: seq<seq<Id>>, b: seq<seq<Id>>)
    ensures Flatten(a + b) == Flatten(a) + Flatten(b)
  {
    if a == [] {
      assert a + b == b;
    } else {
      assert (a + b)[1..] == a[1..] + b;
      FlattenJoins(a[1..], b);
    }
  }

  lemma FlattenOne(segment: seq<Id>)
    ensures Flatten([segment]) == segment
  {
    assert [segment][1..] == [];
  }

  lemma {:induction false} FlattenEmptyIff(segments: seq<seq<Id>>)
    ensures Flatten(segments) == [] <==> forall i :: 0 <= i < |segments| ==> segments[i] == []
  {
    if segments != [] {
      FlattenEmptyIff(segments[1..]);
    }
  }

  /**
   * The first exact match decides, whatever prefixes match; else the first prefix match; else the
   * default route.  A deciding route without accounts opens the whole pool.
   */
  lemma RoutePrecedence(plan: Plan, model: string, i: nat)
    requires !AllBlank(model, Blank)
    ensures i < |plan.policies| && Trim(model) in plan.policies[i].exactModels
            && (forall j :: 0 <= j < i ==> Trim(model) !in plan.policies[j].exactModels)
            ==> Candidates(Some(plan), Some(model)) == RouteOf(plan.policies[i].segments)
    ensures i < |plan.policies| && MatchesPrefix(plan.policies[i], Trim(model))
            && (forall j :: 0 <= j < i ==> !MatchesPrefix(plan.policies[j], Trim(model)))
            && (forall p :: p in plan.policies ==> Trim(model) !in p.exactModels)
            ==> Candidates(Some(plan), Some(model)) == RouteOf(plan.policies[i].segments)
    ensures (forall p :: p in plan.policies ==> Trim(model) !in p.exactModels && !MatchesPrefix(p, Trim(model)))
            ==> Candidates(Some(plan), Some(model)) == RouteOf(plan.defaultRoute)
  {
    var m := Trim(model);
    TrimIsEmptyIff(model, Blank);
    FirstIs(plan.policies, p => MatchesExactly(p, m), i);
    FirstIs(plan.policies, p => MatchesPrefix(p, m), i);
  }

  /** A policy's prefix matches exactly the models that it starts. */
  lemma PrefixMatches(p: Policy, prefix: string, rest: string)
    requires prefix in p.prefixes
    ensures MatchesPrefix(p, prefix + rest)
  {
    assert prefix <= prefix + rest;
  }

  lemma PrefixMatchesOnly(p: Policy, model: string)
    requires MatchesPrefix(p, model)
    ensures exists k :: 0 <= k <= |model| && model[..k] in p.prefixes
  {
    var x :| x in p.prefixes && x <= model;
    assert model[..|x|] == x;
  }

  /** Without a model or a plan the whole pool is open. */
  lemma NoRouteOpensPool(plan: Option<Plan>, model: Option<string>)
    requires plan.None? || model.None? || AllBlank(model.value, Blank)
    ensures Candidates(plan, model) == None
  {
    if model.Some? {
      TrimIsEmptyIff(model.value, Blank);
    }
  }

  lemma {:induction false} FirstIs(policies: seq<Policy>, matches: Policy -> bool, i: nat)
    ensures i < |policies| && matches(policies[i]) && (forall j :: 0 <= j < i ==> !matches(policies[j]))
            ==> First(policies, matches) == Some(policies[i])
    decreases i
  {
    if 0 < i < |policies| && matches(policies[i]) && forall j :: 0 <= j < i ==> !matches(policies[j]) {
      assert !matches(policies[0]);
      forall j | 0 <= j < i - 1 ensures !matches(policies[1..][j]) {
        assert !matches(policies[j + 1]);
      }
      FirstIs(policies[1..], matches, i - 1);
    }
  }
}
