/** The order in which `SetupHandler.handle`
    (core/handler/impl/setup_handler.py) registers event filters, and where
    a repeated filter name stops it. */
module FilterRegistration {
  import opened Seqs
  import opened EventFilters

  /** The default event filters, cheapest first. */
  function DefaultFilters(): (fs: seq<EventFilter>)
    ensures |fs| == 5 && forall i :: 0 <= i < |fs| ==> !fs[i].CustomFilter?
  {
    [PlanningIntervalFilter, PlacingFilter, DateIntervalFilter, DistanceFilter, QuotaFilter]
  }

  /** `get_name()` of each filter. */
  function FilterNames(fs: seq<EventFilter>): (ns: seq<string>)
    ensures |ns| == |fs| && forall i :: 0 <= i < |fs| ==> ns[i] == FilterName(fs[i])
  {
    seq(|fs|, i requires 0 <= i < |fs| => FilterName(fs[i]))
  }

  predicate DistinctNames(fs: seq<EventFilter>) {
    Distinct(FilterNames(fs))
  }

  function Elems<T>(s: seq<T>): set<T> {
    set x | x in s
  }

  /** The registration loop from position `i` on, with the names `seen`
      already registered: the position of the first name already seen, or
      `|s|` when there is none. */
  function RepeatFrom<T(==)>(s: seq<T>, i: int, seen: set<T>): (k: int)
    requires 0 <= i <= |s|
    ensures i <= k <= |s|
    decreases |s| - i
  {
    if i == |s| then |s|
    else if s[i] in seen then i
    else RepeatFrom(s, i + 1, seen + {s[i]})
  }

  /** How far registration gets: the position of the first filter whose
      name an earlier filter already has, or `|fs|`. */
  function FirstDuplicate(fs: seq<EventFilter>): (k: int)
    ensures 0 <= k <= |fs|
  {
    RepeatFrom(FilterNames(fs), 0, {})
  }

  lemma {:induction false} RepeatFromSpec<T>(s: seq<T>, i: int, seen: set<T>)
    requires 0 <= i <= |s| && seen == Elems(s[..i]) && Distinct(s[..i])
    ensures var k := RepeatFrom(s, i, seen);
      Distinct(s[..k]) && (k < |s| ==> s[k] in s[..k])
    decreases |s| - i
  {
    if i < |s| && s[i] !in seen {
      var next := s[..i + 1];
      assert next == s[..i] + [s[i]];
      assert Elems(next) == seen + {s[i]};
      assert Distinct(next) by {
        forall a, b | 0 <= a < b < |next| ensures next[a] != next[b] {
          assert next[a] == s[..i][a];
          if b < i {
            assert next[b] == s[..i][b];
          } else {
            assert next[a] in seen;
          }
        }
      }
      RepeatFromSpec(s, i + 1, seen + {s[i]});
    }
  }

  /** Registration stops exactly at the first name already registered: the
      names before it are pairwise different. */
  lemma FirstRepeatSpec<T>(s: seq<T>)
    ensures var k := RepeatFrom(s, 0, {});
      Distinct(s[..k]) && (k < |s| ==> s[k] in s[..k])
  {
    assert Elems(s[..0]) == {};
    RepeatFromSpec(s, 0, {});
  }

  /** Pairwise different names are all registered. */
  lemma FirstRepeatNone<T>(s: seq<T>)
    requires Distinct(s)
    ensures RepeatFrom(s, 0, {}) == |s|
  {
    FirstRepeatSpec(s);
    var k := RepeatFrom(s, 0, {});
    assert forall j :: 0 <= j < k ==> s[..k][j] == s[j];
    if k < |s| {
      assert false;
    }
  }

  /** Distinct names at the front are registered without stopping. */
  lemma {:induction false} RepeatFromSkip<T>(a: seq<T>, b: seq<T>, i: int)
    requires Distinct(a) && 0 <= i <= |a|
    ensures RepeatFrom(a + b, i, Elems(a[..i])) == RepeatFrom(a + b, |a|, Elems(a))
    decreases |a| - i
  {
    if i < |a| {
      assert (a + b)[i] == a[i];
      assert a[i] !in a[..i] by {
        DistinctNotInPrefix(a, i);
      }
      assert a[..i + 1] == a[..i] + [a[i]];
      assert Elems(a[..i + 1]) == Elems(a[..i]) + {a[i]};
      RepeatFromSkip(a, b, i + 1);
    } else {
      assert a[..i] == a;
    }
  }

  /** Names after the front that the front never uses stop exactly where
      they would on their own. */
  lemma {:induction false} RepeatFromShift<T>(a: seq<T>, b: seq<T>, j: int, seen: set<T>)
    requires forall x :: x in b ==> x !in a
    requires 0 <= j <= |b|
    ensures RepeatFrom(a + b, |a| + j, Elems(a) + seen) == |a| + RepeatFrom(b, j, seen)
    decreases |b| - j
  {
    if j < |b| {
      assert (a + b)[|a| + j] == b[j];
      assert b[j] !in Elems(a);
      RepeatFromShift(a, b, j + 1, seen + {b[j]});
      assert Elems(a) + seen + {b[j]} == Elems(a) + (seen + {b[j]});
    }
  }

  /** The five default filters have pairwise different names. */
  lemma DefaultNamesDistinct(d: seq<EventFilter>)
    requires |d| == 5 && d[0].PlanningIntervalFilter? && d[1].PlacingFilter? && d[2].DateIntervalFilter?
    requires d[3].DistanceFilter? && d[4].QuotaFilter?
    ensures Distinct(FilterNames(d))
  {
    FilterNamesDistinct(d[0], d[1]);
    FilterNamesDistinct(d[0], d[2]);
    FilterNamesDistinct(d[0], d[3]);
    FilterNamesDistinct(d[0], d[4]);
    FilterNamesDistinct(d[1], d[2]);
    FilterNamesDistinct(d[1], d[3]);
    FilterNamesDistinct(d[1], d[4]);
    FilterNamesDistinct(d[2], d[3]);
    FilterNamesDistinct(d[2], d[4]);
    FilterNamesDistinct(d[3], d[4]);
    var ns := FilterNames(d);
    Distinct5(ns);
  }

  lemma Distinct5<T>(s: seq<T>)
    requires |s| == 5
    requires s[0] != s[1] && s[0] != s[2] && s[0] != s[3] && s[0] != s[4]
    requires s[1] != s[2] && s[1] != s[3] && s[1] != s[4]
    requires s[2] != s[3] && s[2] != s[4] && s[3] != s[4]
    ensures Distinct(s)
  {
    forall i, j | 0 <= i < j < 5 ensures s[i] != s[j] {
      if i == 0 {
        assert j == 1 || j == 2 || j == 3 || j == 4;
      } else if i == 1 {
        assert j == 2 || j == 3 || j == 4;
      } else if i == 2 {
        assert j == 3 || j == 4;
      }
    }
  }

  /** Names of custom filters after default ones stop exactly where they
      would on their own. */
  lemma FiltersStop(d: seq<EventFilter>, customs: seq<EventFilter>)
    requires forall i :: 0 <= i < |d| ==> !d[i].CustomFilter?
    requires forall f :: f in customs ==> f.CustomFilter?
    requires Distinct(FilterNames(d))
    ensures FirstDuplicate(d + customs) == |d| + FirstDuplicate(customs)
  {
    var dn := FilterNames(d);
    var cn := FilterNames(customs);
    NamesConcat(d, customs);
    NamesDisjoint(d, customs);
    RepeatAfter(dn, cn);
  }

  lemma NamesConcat(a: seq<EventFilter>, b: seq<EventFilter>)
    ensures FilterNames(a + b) == FilterNames(a) + FilterNames(b)
  {
    var l := FilterNames(a + b);
    var r := FilterNames(a) + FilterNames(b);
    assert |l| == |r|;
    forall i | 0 <= i < |l| ensures l[i] == r[i] {
      if i < |a| {
        assert (a + b)[i] == a[i];
      } else {
        assert (a + b)[i] == b[i - |a|];
      }
    }
  }

  lemma NamesDisjoint(d: seq<EventFilter>, customs: seq<EventFilter>)
    requires forall i :: 0 <= i < |d| ==> !d[i].CustomFilter?
    requires forall f :: f in customs ==> f.CustomFilter?
    ensures forall x :: x in FilterNames(customs) ==> x !in FilterNames(d)
  {
    forall i, j | 0 <= i < |d| && 0 <= j < |customs|
      ensures FilterName(customs[j]) != FilterName(d[i])
    {
      CustomNameNotDefault(customs[j], d[i]);
    }
  }

  lemma RepeatAfter<T>(a: seq<T>, b: seq<T>)
    requires Distinct(a)
    requires forall x :: x in b ==> x !in a
    ensures RepeatFrom(a + b, 0, {}) == |a| + RepeatFrom(b, 0, {})
  {
    assert a[..0] == [] && Elems<T>([]) == {};
    RepeatFromSkip(a, b, 0);
    RepeatFromShift(a, b, 0, {});
    assert Elems(a) + {} == Elems(a);
  }

  /** Registration of filters whose names repeat stops at a filter whose
      name an earlier one has, having registered filters of pairwise
      different names. */
  lemma FirstDuplicateSpec(cs: seq<EventFilter>)
    requires !DistinctNames(cs)
    ensures var k := FirstDuplicate(cs);
      k < |cs| && DistinctNames(cs[..k])
      && exists j :: 0 <= j < k && FilterName(cs[j]) == FilterName(cs[k])
  {
    var cn := FilterNames(cs);
    FirstRepeatSome(cn);
    var k := FirstDuplicate(cs);
    NamesPrefix(cs, k);
    var j :| 0 <= j < k && cn[j] == cn[k];
    assert FilterName(cs[j]) == cn[j];
  }

  /** The names of the first `k` filters. */
  lemma NamesPrefix(cs: seq<EventFilter>, k: int)
    requires 0 <= k <= |cs|
    ensures FilterNames(cs[..k]) == FilterNames(cs)[..k]
  {
  }

  /** A sequence with a repeat stops at an element equal to an earlier one. */
  lemma FirstRepeatSome<T>(s: seq<T>)
    requires !Distinct(s)
    ensures var k := RepeatFrom(s, 0, {});
      k < |s| && Distinct(s[..k]) && exists j :: 0 <= j < k && s[j] == s[k]
  {
    FirstRepeatSpec(s);
    var k := RepeatFrom(s, 0, {});
    assert forall j :: 0 <= j < k ==> s[..k][j] == s[j];
    if k == |s| {
      assert false;
    }
    var j :| 0 <= j < k && s[..k][j] == s[k];
  }

  /** The first `|a| + k` filters of `a + b`. */
  lemma PrefixOfConcat<T>(a: seq<T>, b: seq<T>, k: int)
    requires 0 <= k <= |b|
    ensures (a + b)[..|a| + k] == a + b[..k]
  {
  }

  /** The default filters never clash, with each other or with a custom
      filter: registration gets exactly as far into the custom filters as
      it would with the custom filters alone. */
  lemma SetupFiltersStop(customs: seq<EventFilter>)
    requires forall f :: f in customs ==> f.CustomFilter?
    ensures FirstDuplicate(DefaultFilters() + customs) == |DefaultFilters()| + FirstDuplicate(customs)
  {
    DefaultNamesDistinct(DefaultFilters());
    FiltersStop(DefaultFilters(), customs);
  }

}
