/** Which media will hold a copy of a dumptype's archives: its route, closed under the sync rules. */
module Routing {
  import opened Order

  /** An empty source is an automatic rule, which mirrors the configured landings. */
  datatype Rule = Rule(from: string, to: string)

  predicate Fires(r: Rule, landings: seq<string>, s: set<string>)
  {
    if r.from == "" then exists i :: 0 <= i < |landings| && landings[i] in s else r.from in s
  }

  /** No rule can add anything. */
  ghost predicate Closed(rules: seq<Rule>, landings: seq<string>, s: set<string>)
  {
    forall i :: 0 <= i < |rules| && rules[i].to != "" && Fires(rules[i], landings, s) ==> rules[i].to in s
  }

  ghost predicate Holds(route: seq<string>, s: set<string>) { forall i :: 0 <= i < |route| ==> route[i] in s }

  /** s is the smallest set that holds the route and is closed under the rules. */
  ghost predicate LeastClosed(route: seq<string>, rules: seq<Rule>, landings: seq<string>, s: set<string>)
  {
    && Holds(route, s) && Closed(rules, landings, s)
    && forall t: set<string> :: Holds(route, t) && Closed(rules, landings, t) ==> s <= t
  }

  function Targets(rules: seq<Rule>): set<string> { set i | 0 <= i < |rules| :: rules[i].to }

  method MirrorsLanding(landings: seq<string>, s: set<string>) returns (from: bool)
    ensures from <==> exists i :: 0 <= i < |landings| && landings[i] in s
  {
    from := false;
    for n := 0 to |landings|
      invariant !from && forall i :: 0 <= i < n ==> landings[i] !in s
    {
      if landings[n] in s {
        return true;
      }
    }
  }

  /** Below every closed set that holds the route. */
  ghost predicate Forced(route: seq<string>, rules: seq<Rule>, landings: seq<string>, s: set<string>)
  {
    forall t: set<string> :: Holds(route, t) && Closed(rules, landings, t) ==> s <= t
  }

  lemma FiringIsForced(route: seq<string>, rules: seq<Rule>, landings: seq<string>, s: set<string>, i: nat)
    requires Forced(route, rules, landings, s) && i < |rules| && rules[i].to != "" && Fires(rules[i], landings, s)
    ensures Forced(route, rules, landings, s + {rules[i].to})
  {
    forall t: set<string> | Holds(route, t) && Closed(rules, landings, t) ensures s + {rules[i].to} <= t {
      assert s <= t;
      assert Fires(rules[i], landings, t);
    }
  }

  /** One pass over the rules. */
  method ApplyRules(route: seq<string>, rules: seq<Rule>, landings: seq<string>, s0: set<string>) returns (s: set<string>, changed: bool)
    requires Holds(route, s0) && Forced(route, rules, landings, s0)
    ensures Holds(route, s) && Forced(route, rules, landings, s) && s0 <= s
    ensures s <= s0 + Targets(rules)
    ensures changed <==> s != s0
    ensures !changed ==> Closed(rules, landings, s)
  {
    s, changed := s0, false;
    for n := 0 to |rules|
      invariant Holds(route, s) && Forced(route, rules, landings, s) && s0 <= s <= s0 + Targets(rules)
      invariant changed <==> s != s0
      invariant !changed ==> forall i :: 0 <= i < n && rules[i].to != "" && Fires(rules[i], landings, s) ==> rules[i].to in s
    {
      var r := rules[n];
      if r.to == "" || r.to in s {
        continue;
      }
      var from;
      if r.from == "" {
        from := MirrorsLanding(landings, s);
      } else {
        from := r.from in s;
      }
      if from {
        FiringIsForced(route, rules, landings, s, n);
        s, changed := s + {r.to}, true;
      }
    }
  }

  /** The copy media, sorted: exactly the least set that holds the dumptype's route and is
      closed under the sync rules. */
  method CopyMediaFor(route: seq<string>, rules: seq<Rule>, landings: seq<string>) returns (out: seq<string>, ghost media: set<string>)
    ensures LeastClosed(route, rules, landings, media)
    ensures forall m :: m in out <==> m in media
    ensures Distinct(out) && Sorted(out, StrLess)
  {
    var s := {};
    for n := 0 to |route|
      invariant Holds(route[..n], s) && forall m :: m in s ==> m in route[..n]
    {
      assert route[..n + 1] == route[..n] + [route[n]];
      s := s + {route[n]};
    }
    assert route[..|route|] == route;
    var changed := true;
    ghost var pool := s + Targets(rules);
    while changed
      invariant Holds(route, s) && Forced(route, rules, landings, s) && s <= pool
      invariant !changed ==> Closed(rules, landings, s)
      decreases changed, |pool - s|
    {
      ghost var before := s;
      s, changed := ApplyRules(route, rules, landings, s);
      if changed { Smaller(pool - s, pool - before); }
    }
    media := s;
    out := SortedMedia(s);
  }

  lemma Smaller(a: set<string>, b: set<string>)
    requires a < b
    ensures |a| < |b|
  {
    assert b == a + (b - a);
  }

  method SortedMedia(s: set<string>) returns (out: seq<string>)
    ensures forall m :: m in out <==> m in s
    ensures Distinct(out) && Sorted(out, StrLess)
  {
    var todo, found := s, [];
    while todo != {}
      invariant todo <= s && Distinct(found) && forall m :: m in found <==> m in s - todo
      decreases |todo|
    {
      var m :| m in todo;
      assert m !in found;
      found, todo := found + [m], todo - {m};
    }
    out := Sort(found, StrLess);
    StrLessOrders();
    SortSorts(found, StrLess);
    SortKeepsElements(found, StrLess);
    SortKeepsDistinct(found, StrLess);
  }

  lemma StrLessOrders()
    ensures StrictWeakOrder(StrLess)
  {
    forall a: string ensures !StrLess(a, a) { StrLessIrreflexive(a); }
    forall a, b, c | StrLess(a, b) && StrLess(b, c) ensures StrLess(a, c) { StrLessTransitive(a, b, c); }
    forall a, b, c | !StrLess(a, b) && !StrLess(b, c) ensures !StrLess(a, c) {
      StrLessTotal(a, b);
      StrLessTotal(b, c);
      StrLessIrreflexive(a);
      if StrLess(c, b) && StrLess(b, a) { StrLessTransitive(c, b, a); }
      if StrLess(a, c) && StrLess(c, a) { StrLessTransitive(a, c, a); }
    }
  }

  /** There is only one such set, and the order (and repetition) of the rules and landings does
      not matter. */
  lemma OrderOfRulesIrrelevant(route: seq<string>, rules: seq<Rule>, landings: seq<string>, s: set<string>,
                               rules': seq<Rule>, landings': seq<string>, s': set<string>)
    requires LeastClosed(route, rules, landings, s) && LeastClosed(route, rules', landings', s')
    requires (forall r :: r in rules <==> r in rules') && (forall l :: l in landings <==> l in landings')
    ensures s == s'
  {
    SameRulesSameClosed(rules, landings, rules', landings', s');
    SameRulesSameClosed(rules', landings', rules, landings, s);
  }

  lemma SameRulesSameClosed(rules: seq<Rule>, landings: seq<string>, rules': seq<Rule>, landings': seq<string>, t: set<string>)
    requires (forall r :: r in rules ==> r in rules') && (forall l :: l in landings ==> l in landings')
    requires Closed(rules', landings', t)
    ensures Closed(rules, landings, t)
  {
    forall i | 0 <= i < |rules| && rules[i].to != "" && Fires(rules[i], landings, t) ensures rules[i].to in t {
      assert rules[i] in rules';
      var j :| 0 <= j < |rules'| && rules'[j] == rules[i];
      if rules[i].from == "" {
        var k :| 0 <= k < |landings| && landings[k] in t;
        assert landings[k] in landings';
      }
      assert Fires(rules'[j], landings', t);
    }
  }

  /** The rule has a source in s: the medium it names, or for an automatic rule some landing. */
  ghost predicate HasSource(r: Rule, landings: seq<string>, s: set<string>)
  {
    (r.from != "" && r.from in s) || (r.from == "" && exists l :: l in landings && l in s)
  }

  /** A medium holds a copy exactly when the route names it or a rule brings it from a medium that
      holds one. */
  lemma MemberIff(route: seq<string>, rules: seq<Rule>, landings: seq<string>, s: set<string>, m: string)
    requires LeastClosed(route, rules, landings, s)
    ensures m in s <==> m in route || (m != "" && exists r :: r in rules && r.to == m && HasSource(r, landings, s))
  {
    if r :| r in rules && r.to == m && m != "" && HasSource(r, landings, s) {
      var i :| 0 <= i < |rules| && rules[i] == r;
      if r.from == "" {
        var l :| l in landings && l in s;
        var k :| 0 <= k < |landings| && landings[k] == l;
      }
      assert Fires(rules[i], landings, s);
    }
    if m !in route && !(m != "" && exists r :: r in rules && r.to == m && HasSource(r, landings, s)) {
      var t := s - {m};
      forall i | 0 <= i < |rules| && rules[i].to != "" && Fires(rules[i], landings, t) ensures rules[i].to in t {
        assert rules[i] in rules && HasSource(rules[i], landings, s);
        assert Fires(rules[i], landings, s);
      }
      assert Closed(rules, landings, t) && Holds(route, t);
    }
  }
}
