/** Rule sets and the helpers of utilities/schedule_helper.py that read them:
    collecting the boundary modules a rule-set document needs, converting the
    document to the name-keyed form the builder reads, filtering boundary
    objects by their class, and filtering events by their quota. */
module RuleSets {
  import opened Outcomes
  import opened Seqs
  import opened Calendar
  import opened ScheduleEvents
  import opened Schedules
  import opened EventFilters
  import opened Naming

  /** A rule of a rule set: a rule of type `boundary`, carrying the
      configuration stored under its kind, or a rule of any other type. */
  datatype Rule = BoundaryRule(config: Boundary) | OtherRule(ruleType: string)

  /** One entry of a document's `rule_set` list. */
  datatype RuleSet = RuleSet(id: int, name: string, rules: seq<Rule>)

  /** A rule-set document: its `scope` and its `rule_set` list. */
  datatype RuleDoc = RuleDoc(scope: string, ruleSets: seq<RuleSet>)

  /** The `boundary` key of a boundary rule: the kind of its boundary. */
  function Kind(b: Boundary): (k: string)
    ensures k != [] && '_' !in k
  {
    match b
    case DateBoundary(_) => "date"
    case PeriodBoundary(_) => "period"
    case DistanceBoundary(_) => "distance"
  }

  /** The module a boundary of this kind is loaded from, `boundary_<kind>`. */
  function ModuleName(b: Boundary): string
  {
    "boundary_" + Kind(b)
  }

  /** Distinct kinds have distinct module names. */
  lemma ModuleNameInjective(a: Boundary, b: Boundary)
    ensures ModuleName(a) == ModuleName(b) <==> Kind(a) == Kind(b)
  {
    if ModuleName(a) == ModuleName(b) {
      assert Kind(a) == ModuleName(a)[9..];
      assert Kind(b) == ModuleName(b)[9..];
    }
  }

  // ---------------------------------------------------------------------
  // load_boundaries

  /** Every rule of the rule sets, set by set, in order. */
  function AllRules(sets: seq<RuleSet>): seq<Rule>
  {
    if sets == [] then [] else AllRules(sets[..|sets| - 1]) + sets[|sets| - 1].rules
  }

  /** The keys `load_boundaries` enters in its dictionary, in insertion
      order: the module name of each boundary rule the first time its kind
      is seen. */
  function ModuleNames(rules: seq<Rule>): (r: seq<string>)
    ensures |r| <= |rules|
  {
    if rules == [] then []
    else
      var prev := ModuleNames(rules[..|rules| - 1]);
      match rules[|rules| - 1]
      case BoundaryRule(b) => if ModuleName(b) in prev then prev else prev + [ModuleName(b)]
      case OtherRule(_) => prev
  }

  /** Each needed module is collected exactly once, and only those: a name is
      collected iff some boundary rule has that kind. Other rule types are
      ignored. */
  lemma {:induction false} ModuleNamesSpec(rules: seq<Rule>)
    ensures Distinct(ModuleNames(rules))
    ensures forall m :: m in ModuleNames(rules) <==>
      exists i :: 0 <= i < |rules| && rules[i].BoundaryRule? && m == ModuleName(rules[i].config)
  {
    if rules != [] {
      var init, last := rules[..|rules| - 1], rules[|rules| - 1];
      ModuleNamesSpec(init);
      assert init + [last] == rules;
      ModuleNamesSnoc(init, last);
      var prev := ModuleNames(init);
      assert forall i :: 0 <= i < |init| ==> init[i] == rules[i];
      forall m | m in ModuleNames(rules)
        ensures exists i :: 0 <= i < |rules| && rules[i].BoundaryRule? && m == ModuleName(rules[i].config)
      {
        if m in prev {
          var i :| 0 <= i < |init| && init[i].BoundaryRule? && m == ModuleName(init[i].config);
          assert rules[i] == init[i];
        } else {
          assert rules[|rules| - 1].BoundaryRule? && m == ModuleName(rules[|rules| - 1].config);
        }
      }
      forall i | 0 <= i < |rules| && rules[i].BoundaryRule?
        ensures ModuleName(rules[i].config) in ModuleNames(rules)
      {
        if i < |init| {
          assert init[i] == rules[i];
        }
      }
      if last.BoundaryRule? && ModuleName(last.config) !in prev {
        DistinctSnoc(prev, ModuleName(last.config));
      }
    }
  }

  /** One more rule adds its module name when it is a boundary rule whose
      name is not yet listed. */
  lemma ModuleNamesSnoc(rules: seq<Rule>, r: Rule)
    ensures ModuleNames(rules + [r]) ==
      if r.BoundaryRule? && ModuleName(r.config) !in ModuleNames(rules)
      then ModuleNames(rules) + [ModuleName(r.config)] else ModuleNames(rules)
  {
    assert (rules + [r])[..|rules|] == rules;
  }

  /** `load_boundaries(sch_inp)` up to the module loading: the names of the
      modules the document's boundary rules need, walking every rule of
      every rule set. */
  method LoadBoundaries(doc: RuleDoc) returns (names: seq<string>)
    ensures names == ModuleNames(AllRules(doc.ruleSets))
  {
    var sets := doc.ruleSets;
    names := [];
    var i := 0;
    while i < |sets|
      invariant 0 <= i <= |sets|
      invariant names == ModuleNames(AllRules(sets[..i]))
    {
      names := CollectModules(names, sets[i].rules, AllRules(sets[..i]));
      assert sets[..i + 1][..i] == sets[..i];
      i := i + 1;
    }
    assert sets[..i] == sets;
  }

  /** The inner loop of `load_boundaries` over the rules of one rule set,
      continuing the names collected from the rules `before` it. */
  method CollectModules(names: seq<string>, rules: seq<Rule>, ghost before: seq<Rule>) returns (out: seq<string>)
    requires names == ModuleNames(before)
    ensures out == ModuleNames(before + rules)
  {
    out := names;
    assert before + rules[..0] == before;
    var j := 0;
    while j < |rules|
      invariant 0 <= j <= |rules|
      invariant out == ModuleNames(before + rules[..j])
    {
      ghost var seen, upto := before + rules[..j], before + rules[..j + 1];
      assert upto == seen + [rules[j]] by {
        assert rules[..j + 1] == rules[..j] + [rules[j]];
        ConcatAssoc(before, rules[..j], [rules[j]]);
      }
      ModuleNamesSnoc(seen, rules[j]);
      if rules[j].BoundaryRule? && ModuleName(rules[j].config) !in out {
        out := out + [ModuleName(rules[j].config)];
      }
      assert out == ModuleNames(upto);
      j := j + 1;
    }
    assert rules[..j] == rules;
  }

  /** The document's modules are collected once each, exactly for the kinds
      of its boundary rules. */
  lemma LoadBoundariesSpec(doc: RuleDoc)
    ensures Distinct(ModuleNames(AllRules(doc.ruleSets)))
    ensures forall m :: m in ModuleNames(AllRules(doc.ruleSets)) <==>
      exists b :: BoundaryRule(b) in AllRules(doc.ruleSets) && m == ModuleName(b)
  {
    var rules := AllRules(doc.ruleSets);
    ModuleNamesSpec(rules);
    forall m ensures m in ModuleNames(rules) ==> exists b :: BoundaryRule(b) in rules && m == ModuleName(b) {
      if m in ModuleNames(rules) {
        var i :| 0 <= i < |rules| && rules[i].BoundaryRule? && m == ModuleName(rules[i].config);
        assert BoundaryRule(rules[i].config) == rules[i];
      }
    }
    forall b | BoundaryRule(b) in rules ensures ModuleName(b) in ModuleNames(rules) {
      var i :| 0 <= i < |rules| && rules[i] == BoundaryRule(b);
    }
  }

  // ---------------------------------------------------------------------
  // convert_rule_set

  /** A rule after conversion: a boundary rule with the module it is loaded
      from and the name of its class written into it, or any other rule as
      it was. */
  datatype ConvertedRule =
    | ConvertedBoundary(config: Boundary, moduleName: string, className: string)
    | PlainRule(ruleType: string)

  /** One entry of the converted rule set: the rule set's id and rules. */
  datatype ConvertedSet = ConvertedSet(id: int, rules: seq<ConvertedRule>)

  /** Converts one rule, given the names of the loaded boundary modules. */
  function ConvertRule(rule: Rule, loaded: set<string>): (r: Result<ConvertedRule>)
    ensures r.Err? <==> rule.BoundaryRule? && ModuleName(rule.config) !in loaded
    ensures r.Err? ==> r.error == BoundaryNotLoaded
    ensures rule.OtherRule? ==> r == Ok(PlainRule(rule.ruleType))
    ensures r.Ok? && rule.BoundaryRule? ==>
      r.value.ConvertedBoundary? && r.value.config == rule.config && r.value.moduleName == ModuleName(rule.config)
  {
    match rule
    case OtherRule(t) => Ok(PlainRule(t))
    case BoundaryRule(b) =>
      if ModuleName(b) !in loaded then Err(BoundaryNotLoaded)
      else Ok(ConvertedBoundary(b, ModuleName(b), UnderscoreToCamel(ModuleName(b))))
  }

  /** The class a converted boundary rule names is `Boundary` followed by its
      capitalised kind: `boundary_period` gives `BoundaryPeriod`. */
  lemma ConvertedClassName(rule: Rule, loaded: set<string>)
    requires rule.BoundaryRule? && ConvertRule(rule, loaded).Ok?
    ensures ConvertRule(rule, loaded).value.className == "Boundary" + Capitalize(Kind(rule.config))
  {
    BoundaryClassName(Kind(rule.config));
  }

  /** The rules of one rule set, converted in order; the first boundary rule
      whose module is not loaded fails. */
  function ConvertRules(rules: seq<Rule>, loaded: set<string>): (r: Result<seq<ConvertedRule>>)
    ensures r.Ok? <==> forall i :: 0 <= i < |rules| ==> ConvertRule(rules[i], loaded).Ok?
    ensures r.Err? ==> r.error == BoundaryNotLoaded
    ensures r.Ok? ==>
      |r.value| == |rules| && forall i :: 0 <= i < |rules| ==> ConvertRule(rules[i], loaded) == Ok(r.value[i])
  {
    if rules == [] then Ok([])
    else
      var init := rules[..|rules| - 1];
      assert forall i :: 0 <= i < |init| ==> init[i] == rules[i];
      match ConvertRules(init, loaded)
      case Err(e) => Err(e)
      case Ok(prev) =>
        match ConvertRule(rules[|rules| - 1], loaded)
        case Err(e) => Err(e)
        case Ok(c) => Ok(prev + [c])
  }

  /** `convert_rule_set`: each rule set under its name, with its id and its
      converted rules; a later rule set of the same name replaces an earlier
      one. */
  function ConvertSpec(sets: seq<RuleSet>, loaded: set<string>): (r: Result<map<string, ConvertedSet>>)
    ensures r.Err? ==> r.error == BoundaryNotLoaded
    ensures r.Ok? ==> forall n :: n in r.value ==> exists i :: 0 <= i < |sets| && sets[i].name == n
  {
    if sets == [] then Ok(map[])
    else
      var last := sets[|sets| - 1];
      match ConvertSpec(sets[..|sets| - 1], loaded)
      case Err(e) => Err(e)
      case Ok(m) =>
        match ConvertRules(last.rules, loaded)
        case Err(e) => Err(e)
        case Ok(rs) => Ok(m[last.name := ConvertedSet(last.id, rs)])
  }

  /** Conversion fails exactly when some rule set holds a boundary rule whose
      module is not loaded. */
  lemma {:induction false} ConvertSpecFails(sets: seq<RuleSet>, loaded: set<string>)
    ensures ConvertSpec(sets, loaded).Err? <==>
      exists i :: 0 <= i < |sets| && ConvertRules(sets[i].rules, loaded).Err?
    ensures ConvertSpec(sets, loaded).Err? ==> ConvertSpec(sets, loaded).error == BoundaryNotLoaded
  {
    if sets != [] {
      var init, last := sets[..|sets| - 1], sets[|sets| - 1];
      ConvertSpecFails(init, loaded);
      var r := ConvertSpec(sets, loaded);
      if ConvertSpec(init, loaded).Err? {
        assert r == ConvertSpec(init, loaded);
        var i :| 0 <= i < |init| && ConvertRules(init[i].rules, loaded).Err?;
        assert init[i] == sets[i];
      } else if ConvertRules(last.rules, loaded).Err? {
        assert r == Err(ConvertRules(last.rules, loaded).error);
        assert ConvertRules(sets[|sets| - 1].rules, loaded).Err?;
      } else {
        assert r.Ok?;
        assert forall j :: 0 <= j < |init| ==> ConvertRules(init[j].rules, loaded).Ok?;
        forall i | 0 <= i < |sets| ensures ConvertRules(sets[i].rules, loaded).Ok? {
          if i < |init| {
            assert init[i] == sets[i];
            assert ConvertRules(init[i].rules, loaded).Ok?;
          } else {
            assert sets[i] == last;
          }
        }
      }
    }
  }

  /** After a successful conversion, a name is a key iff some rule set has
      that name, and it holds the id and converted rules of the LAST rule set
      of that name. */
  lemma {:induction false} ConvertSpecLastWins(sets: seq<RuleSet>, loaded: set<string>, k: int)
    requires ConvertSpec(sets, loaded).Ok? && 0 <= k < |sets|
    requires forall j :: k < j < |sets| ==> sets[j].name != sets[k].name
    ensures var m := ConvertSpec(sets, loaded).value;
      sets[k].name in m && m[sets[k].name].id == sets[k].id
      && ConvertRules(sets[k].rules, loaded) == Ok(m[sets[k].name].rules)
  {
    var init := sets[..|sets| - 1];
    if k < |sets| - 1 {
      assert forall j :: k < j < |init| ==> init[j] == sets[j];
      ConvertSpecLastWins(init, loaded, k);
    }
  }

  /** After a successful conversion the keys are exactly the rule-set names. */
  lemma {:induction false} ConvertSpecKeys(sets: seq<RuleSet>, loaded: set<string>)
    requires ConvertSpec(sets, loaded).Ok?
    ensures forall n :: n in ConvertSpec(sets, loaded).value <==> exists i :: 0 <= i < |sets| && sets[i].name == n
  {
    if sets != [] {
      var init := sets[..|sets| - 1];
      ConvertSpecKeys(init, loaded);
      assert forall i :: 0 <= i < |init| ==> init[i] == sets[i];
    }
  }

  /** `convert_rule_set(inp, boundaries)` on a rule-set document, given the
      names of the loaded boundary modules. */
  method ConvertRuleSet(doc: RuleDoc, loaded: set<string>) returns (r: Result<map<string, ConvertedSet>>)
    ensures r == ConvertSpec(doc.ruleSets, loaded)
  {
    var sets := doc.ruleSets;
    var m: map<string, ConvertedSet> := map[];
    var i := 0;
    while i < |sets|
      invariant 0 <= i <= |sets|
      invariant ConvertSpec(sets[..i], loaded) == Ok(m)
    {
      assert sets[..i + 1][..i] == sets[..i];
      var rules := sets[i].rules;
      var converted: seq<ConvertedRule> := [];
      var j := 0;
      while j < |rules|
        invariant 0 <= j <= |rules|
        invariant ConvertRules(rules[..j], loaded) == Ok(converted)
      {
        assert rules[..j + 1][..j] == rules[..j];
        match ConvertRule(rules[j], loaded)
        case Err(e) =>
          assert ConvertRules(rules, loaded).Err?;
          ConvertSpecFails(sets, loaded);
          r := Err(e);
          return;
        case Ok(c) =>
          converted := converted + [c];
        j := j + 1;
      }
      assert rules[..j] == rules;
      m := m[sets[i].name := ConvertedSet(sets[i].id, converted)];
      i := i + 1;
    }
    assert sets[..i] == sets;
    r := Ok(m);
  }

  // ---------------------------------------------------------------------
  // filter_boundaries

  /** `filter_boundaries(boundaries, apply_filters)`, with the filter's
      `boundary_class` entry: a missing or empty entry keeps nothing,
      otherwise exactly the boundaries of that class are kept. */
  function FilterBoundaries(boundaries: map<string, Boundary>, boundaryClass: Option<string>): (r: map<string, Boundary>)
    ensures forall k :: k in r ==> k in boundaries && r[k] == boundaries[k]
    ensures boundaryClass.None? || boundaryClass.value == "" ==> r == map[]
  {
    if boundaryClass.None? || boundaryClass.value == "" then map[]
    else map k | k in boundaries && BoundaryClass(boundaries[k]) == boundaryClass.value :: boundaries[k]
  }

  /** Filtering by `distance` and by `determinate` splits the boundaries
      into two parts that do not overlap and together hold every boundary;
      any other class keeps nothing. */
  lemma FilterBoundariesPartition(boundaries: map<string, Boundary>, other: string)
    requires other != "distance" && other != "determinate"
    ensures var dist := FilterBoundaries(boundaries, Some("distance"));
      var det := FilterBoundaries(boundaries, Some("determinate"));
      dist.Keys !! det.Keys && dist.Keys + det.Keys == boundaries.Keys
      && (forall k :: k in dist <==> k in boundaries && boundaries[k].DistanceBoundary?)
    ensures FilterBoundaries(boundaries, Some(other)) == map[]
  {
  }

  // ---------------------------------------------------------------------
  // filter_events_by_quota

  /** `filter_events_by_quota(sch, date, sch_events)`: the events whose
      `validate_quota` on the date succeeds, in order. */
  function FilterEventsByQuota(s: ScheduleState, d: Date, events: seq<ScheduleEvent>): (r: seq<ScheduleEvent>)
    ensures IsSubseq(r, events)
    ensures forall e :: e in r <==> e in events && ValidateAddEvent(s, e, d) == Pass
  {
    FilterIsSubseq(events, QuotaPassesOn(s, d));
    Filter(events, QuotaPassesOn(s, d))
  }

  /** The helper keeps the same events as the quota filter class. */
  lemma FilterEventsByQuotaIsQuotaFilter(s: ScheduleState, d: Date, events: seq<ScheduleEvent>)
    requires Keyed(FilterContext(s, events, d))
    ensures Apply(QuotaFilter, FilterContext(s, events, d)) == Ok(FilterEventsByQuota(s, d, events))
  {
  }
}
