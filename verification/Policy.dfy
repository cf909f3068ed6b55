/** Which availability policy applies: per setting, the most specific policy that sets it. */
module Policy {
  import RentalModel

  datatype Scope = TENANT | PRODUCT | LOCATION | SKU

  datatype Field =
    | PreparationBuffer | DeliveryBuffer | ReturnBuffer | InspectionBuffer | CleaningBuffer | MinimumNotice | MaximumAdvance
    | PendingHold | AllowShortage | ShortageLimit | RequireSingleLocation | AllowTransfers | TransferLeadTime
    | EligibleGrades | EligibleStates

  /** A stored policy; settings that are null in the row are missing here. */
  datatype Policy<V> = Policy(id: nat, scope: Scope, settings: map<Field, V>)

  function Priority(s: Scope): nat {
    match s
    case TENANT => 0
    case PRODUCT => 1
    case LOCATION => 2
    case SKU => 3
  }

  predicate OnePerScope<V>(ps: seq<Policy<V>>) {
    forall i, j :: 0 <= i < j < |ps| ==> ps[i].scope != ps[j].scope
  }

  /** `v` is the setting that should apply. */
  ghost predicate Applies<V(!new)>(ps: seq<Policy<V>>, defaults: map<Field, V>, f: Field, v: V) {
    (exists p :: p in ps && Decides(ps, p, f) && p.settings[f] == v)
    || ((forall p | p in ps :: f !in p.settings) && f in defaults && defaults[f] == v)
  }

  ghost predicate Decides<V(!new)>(ps: seq<Policy<V>>, p: Policy<V>, f: Field) {
    f in p.settings && forall q | q in ps && f in q.settings :: Priority(q.scope) <= Priority(p.scope)
  }

  /** At most one setting can apply. */
  lemma OneApplies<V(!new)>(ps: seq<Policy<V>>, defaults: map<Field, V>, f: Field, v: V, w: V)
    requires OnePerScope(ps) && Applies(ps, defaults, f, v) && Applies(ps, defaults, f, w)
    ensures v == w
  {
    if p :| p in ps && Decides(ps, p, f) && p.settings[f] == v {
      var q :| q in ps && Decides(ps, q, f) && q.settings[f] == w;
      assert Priority(p.scope) == Priority(q.scope);
      SameScope(ps, p, q);
    }
  }

  lemma SameScope<V(!new)>(ps: seq<Policy<V>>, p: Policy<V>, q: Policy<V>)
    requires OnePerScope(ps) && p in ps && q in ps && Priority(p.scope) == Priority(q.scope)
    ensures p == q
  {
    var i :| 0 <= i < |ps| && ps[i] == p;
    var j :| 0 <= j < |ps| && ps[j] == q;
  }

  function Insert<V>(sorted: seq<Policy<V>>, p: Policy<V>): seq<Policy<V>> {
    if sorted == [] then [p]
    else
      var last := sorted[|sorted| - 1];
      if Priority(last.scope) <= Priority(p.scope) then sorted + [p] else Insert(sorted[..|sorted| - 1], p) + [last]
  }

  function ByPriority<V>(ps: seq<Policy<V>>): seq<Policy<V>> {
    if ps == [] then [] else Insert(ByPriority(ps[..|ps| - 1]), ps[|ps| - 1])
  }

  predicate Ascending<V>(ps: seq<Policy<V>>) {
    forall i, j :: 0 <= i < j < |ps| ==> Priority(ps[i].scope) <= Priority(ps[j].scope)
  }

  lemma {:induction false} Inserted<V(!new)>(sorted: seq<Policy<V>>, p: Policy<V>)
    ensures forall q :: q in Insert(sorted, p) <==> q in sorted || q == p
    ensures Ascending(sorted) ==> Ascending(Insert(sorted, p))
  {
    if sorted != [] && Priority(sorted[|sorted| - 1].scope) > Priority(p.scope) {
      Inserted(sorted[..|sorted| - 1], p);
      assert sorted == sorted[..|sorted| - 1] + [sorted[|sorted| - 1]];
      var front := Insert(sorted[..|sorted| - 1], p);
      assert forall i :: 0 <= i < |front| ==> front[i] in front;
    }
  }

  lemma {:induction false} Sorted<V(!new)>(ps: seq<Policy<V>>)
    ensures (forall q :: q in ByPriority(ps) <==> q in ps) && Ascending(ByPriority(ps))
  {
    if ps != [] {
      Sorted(ps[..|ps| - 1]);
      Inserted(ByPriority(ps[..|ps| - 1]), ps[|ps| - 1]);
      assert ps == ps[..|ps| - 1] + [ps[|ps| - 1]];
    }
  }

  const FIELDS: seq<Field> := [
    PreparationBuffer, DeliveryBuffer, ReturnBuffer, InspectionBuffer, CleaningBuffer, MinimumNotice, MaximumAdvance,
    PendingHold, AllowShortage, ShortageLimit, RequireSingleLocation, AllowTransfers, TransferLeadTime,
    EligibleGrades, EligibleStates]

  lemma EveryField(f: Field)
    ensures f in FIELDS
  {
    match f
    case PreparationBuffer => assert FIELDS[0] == f;
    case DeliveryBuffer => assert FIELDS[1] == f;
    case ReturnBuffer => assert FIELDS[2] == f;
    case InspectionBuffer => assert FIELDS[3] == f;
    case CleaningBuffer => assert FIELDS[4] == f;
    case MinimumNotice => assert FIELDS[5] == f;
    case MaximumAdvance => assert FIELDS[6] == f;
    case PendingHold => assert FIELDS[7] == f;
    case AllowShortage => assert FIELDS[8] == f;
    case ShortageLimit => assert FIELDS[9] == f;
    case RequireSingleLocation => assert FIELDS[10] == f;
    case AllowTransfers => assert FIELDS[11] == f;
    case TransferLeadTime => assert FIELDS[12] == f;
    case EligibleGrades => assert FIELDS[13] == f;
    case EligibleStates => assert FIELDS[14] == f;
  }

  /** Overwrites every setting that the policy has. */
  method ApplyPolicy<V(!new)>(target: map<Field, V>, p: Policy<V>) returns (next: map<Field, V>)
    ensures next == target + p.settings
  {
    next := target;
    hide *;
    for k := 0 to |FIELDS|
      invariant forall f :: f in next <==> f in target || (f in FIELDS[..k] && f in p.settings)
      invariant forall f | f in next :: next[f] == if f in FIELDS[..k] && f in p.settings then p.settings[f] else target[f]
    {
      var field := FIELDS[k];
      assert FIELDS[..k + 1] == FIELDS[..k] + [field];
      if field in p.settings { next := next[field := p.settings[field]]; }
    }
    assert FIELDS[..|FIELDS|] == FIELDS;
    forall f ensures f in FIELDS { EveryField(f); }
  }

  /** Some policy of the scope sets `f` to `v`. */
  ghost predicate Sets<V(!new)>(ps: seq<Policy<V>>, scope: Scope, f: Field, v: V) {
    exists p :: p in ps && p.scope == scope && f in p.settings && p.settings[f] == v
  }

  ghost predicate Unset<V(!new)>(ps: seq<Policy<V>>, scope: Scope, f: Field) {
    forall p | p in ps && p.scope == scope :: f !in p.settings
  }

  /** The SKU's setting; without one that of the location, then of the product, then of the tenant, then the default. */
  ghost predicate Cascades<V(!new)>(ps: seq<Policy<V>>, defaults: map<Field, V>, f: Field, v: V) {
    || Sets(ps, SKU, f, v)
    || (Unset(ps, SKU, f) && (
        || Sets(ps, LOCATION, f, v)
        || (Unset(ps, LOCATION, f) && (
            || Sets(ps, PRODUCT, f, v)
            || (Unset(ps, PRODUCT, f) && (
                || Sets(ps, TENANT, f, v)
                || (Unset(ps, TENANT, f) && f in defaults && defaults[f] == v)))))))
  }

  /** What applies comes from the most specific scope that says anything. */
  lemma AppliesCascades<V(!new)>(ps: seq<Policy<V>>, defaults: map<Field, V>, f: Field, v: V)
    requires Applies(ps, defaults, f, v)
    ensures Cascades(ps, defaults, f, v)
  {
    if p :| p in ps && Decides(ps, p, f) && p.settings[f] == v {
      assert Sets(ps, p.scope, f, v);
      forall q | q in ps && f in q.settings ensures Priority(q.scope) <= Priority(p.scope) { }
      match p.scope
      case SKU =>
      case LOCATION =>
      case PRODUCT =>
      case TENANT =>
    }
  }

  /** Overwrites the defaults, the least specific policy first. */
  method Resolve<V(!new)>(ps: seq<Policy<V>>, defaults: map<Field, V>) returns (resolved: map<Field, V>)
    ensures forall f | f in resolved :: Applies(ps, defaults, f, resolved[f]) && Cascades(ps, defaults, f, resolved[f])
    ensures forall f :: f in resolved <==> f in defaults || exists p :: p in ps && f in p.settings
  {
    var sorted := ByPriority(ps);
    Sorted(ps);
    resolved := defaults;
    for k := 0 to |sorted|
      invariant forall f | f in resolved :: Applies(sorted[..k], defaults, f, resolved[f])
      invariant forall f :: f in resolved <==> f in defaults || exists p :: p in sorted[..k] && f in p.settings
    {
      var p := sorted[k];
      assert sorted[..k + 1] == sorted[..k] + [p];
      var next := ApplyPolicy(resolved, p);
      forall f | f in next ensures Applies(sorted[..k + 1], defaults, f, next[f]) {
        if f in p.settings {
          assert Decides(sorted[..k + 1], p, f);
        } else if q :| q in sorted[..k] && Decides(sorted[..k], q, f) && q.settings[f] == resolved[f] {
          assert Decides(sorted[..k + 1], q, f);
        }
      }
      forall f ensures f in next <==> f in defaults || exists q :: q in sorted[..k + 1] && f in q.settings {
        if f in p.settings { assert p in sorted[..k + 1]; }
      }
      resolved := next;
    }
    assert sorted[..|sorted|] == sorted;
    SameMembers(sorted, ps, defaults, resolved);
    hide Applies, Cascades;
    forall f | f in resolved { AppliesCascades(ps, defaults, f, resolved[f]); }
  }

  lemma SameMembers<V(!new)>(a: seq<Policy<V>>, b: seq<Policy<V>>, defaults: map<Field, V>, resolved: map<Field, V>)
    requires (forall q :: q in a <==> q in b) && forall f | f in resolved :: Applies(a, defaults, f, resolved[f])
    ensures forall f | f in resolved :: Applies(b, defaults, f, resolved[f])
  {
    forall f | f in resolved ensures Applies(b, defaults, f, resolved[f]) {
      if p :| p in a && Decides(a, p, f) && p.settings[f] == resolved[f] {
        assert Decides(b, p, f);
      }
    }
  }

  /** The order in which the policies are read does not matter, as each scope has at most one. */
  lemma OrderDoesNotMatter<V(!new)>(a: seq<Policy<V>>, b: seq<Policy<V>>, defaults: map<Field, V>, f: Field, v: V, w: V)
    requires OnePerScope(a) && forall q :: q in a <==> q in b
    requires Applies(a, defaults, f, v) && Applies(b, defaults, f, w)
    ensures v == w
  {
    if p :| p in b && Decides(b, p, f) && p.settings[f] == w {
      assert Decides(a, p, f);
    }
    OneApplies(a, defaults, f, v, w);
  }

  // ------------------------------------------------------------------ Blocked ranges

  /** The whole days blocked around a rental cover its buffers, and one day less on either side would not. */
  lemma BlockedRangeIsTight(c: RentalModel.PoolConfig, start: int, end: int)
    ensures var w := RentalModel.BlockedRange(c, start, end);
            && (start - w.first) * RentalModel.MINUTES_PER_DAY >= c.beforeMinutes
            && (w.last - end) * RentalModel.MINUTES_PER_DAY >= c.afterMinutes
            && (start - w.first - 1) * RentalModel.MINUTES_PER_DAY < c.beforeMinutes
            && (w.last - end - 1) * RentalModel.MINUTES_PER_DAY < c.afterMinutes
  {
    DaysCover(c.beforeMinutes);
    DaysCover(c.afterMinutes);
  }

  lemma DaysCover(minutes: nat)
    ensures RentalModel.DaysFor(minutes) * RentalModel.MINUTES_PER_DAY >= minutes
    ensures (RentalModel.DaysFor(minutes) - 1) * RentalModel.MINUTES_PER_DAY < minutes || minutes == 0
    ensures minutes == 0 ==> RentalModel.DaysFor(minutes) == 0
  {
  }
}
