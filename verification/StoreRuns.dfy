/**
 What the caches of the store are worth after any run: exactly when a cached table equals the one
 computed from scratch, and exactly by how much the sketch and the counter of keys are off.
 */
module StoreRuns {
  import opened Wrappers
  import opened Keys
  import opened Algebra
  import opened Difference
  import opened Caches
  import opened Sketch
  import opened ContentDb
  import opened ContentStore

  datatype Event =
    | Lookup(size: nat)
    | Add(id: ContentKey, row: Row)
    | Remove(keys: seq<ContentKey>)

  ghost predicate Possible(st: State, e: Event) {
    match e
    case Lookup(size) => 0 < size
    case Add(id, row) => true
    case Remove(keys) => Enumerates(keys, AllEntries(keys)) && AllEntries(keys) <= st.rows.Keys
  }

  ghost function Apply(st: State, cfg: Config, e: Event): State {
    match e
    case Lookup(size) => WithTable(st, cfg, size)
    case Add(id, row) => WithRow(st, cfg, id, row)
    case Remove(keys) => WithoutRows(st, cfg, keys)
  }

  ghost predicate Step(cfg: Config, a: State, e: Event, b: State) {
    Possible(a, e) && b == Apply(a, cfg, e)
  }

  /** A store whose caches are as computed from its rows, such as a new store, which has no cached tables. */
  ghost predicate IsExact(st: State, cfg: Config) {
    && Exact(cfg.scheme, st.iblts, st.rows.Keys)
    && st.sketch == SketchOf(cfg.sketcher, st.rows.Keys) && st.nKeys == |st.rows|
  }

  /** A run of a store from exact caches: its states and the events between them. */
  ghost predicate Run(cfg: Config, states: seq<State>, h: seq<Event>) {
    && |states| == |h| + 1 && IsExact(states[0], cfg)
    && forall i :: 0 <= i < |h| ==> Step(cfg, states[i], h[i], states[i + 1])
  }

  /* ---------- cached tables ---------- */

  /** Event i stores a row again while a table of size s is cached. */
  ghost predicate StoredAgain(states: seq<State>, h: seq<Event>, i: nat, s: nat)
    requires i < |h| && i < |states|
  {
    h[i].Add? && h[i].id in states[i].rows && s in states[i].iblts
  }

  ghost predicate EverStoredAgain(states: seq<State>, h: seq<Event>, s: nat)
    requires |h| < |states|
  {
    exists i: nat :: i < |h| && StoredAgain(states, h, i, s)
  }

  /** What a single cached table, the keys of the rows, the sketch and the counter look like in a state. */
  datatype View = View(keys: set<ContentKey>, table: Option<Table<ContentKey>>, caching: bool, sketch: seq<int>,
                       nKeys: nat)

  ghost function ViewOf(st: State, s: nat): View {
    View(st.rows.Keys, Cached(st.iblts, s), st.iblts != map[], st.sketch, st.nKeys)
  }

  /** How an event changes a view. */
  ghost predicate ViewStep(cfg: Config, s: nat, v: View, e: Event, w: View) {
    match e
    case Lookup(size) =>
      && w.table == (if size == s && v.table.None? then Some(TableOf(cfg.scheme, s, v.keys)) else v.table)
      && w.caching && w.keys == v.keys && w.sketch == v.sketch && w.nKeys == v.nKeys
    case Add(id, row) =>
      && w.table == (if v.table.Some? then Some(Toggled(cfg.scheme, v.table.value, id, 1)) else None)
      && w.caching == v.caching && w.keys == v.keys + {id}
      && w.sketch == WithKey(cfg.sketcher, v.sketch, id) && w.nKeys == v.nKeys + 1
    case Remove(keys) =>
      && Enumerates(keys, AllEntries(keys)) && AllEntries(keys) <= v.keys
      && w.table == (if v.table.Some? then Some(DeletedFrom(cfg.scheme, v.table.value, keys, |keys|)) else None)
      && w.caching == v.caching && w.keys == v.keys - AllEntries(keys)
      && (if keys != [] && v.caching then w.sketch == SketchOf(cfg.sketcher, w.keys) && w.nKeys == |w.keys|
          else w.sketch == v.sketch && w.nKeys == v.nKeys)
  }

  lemma LookupStepsView(st: State, cfg: Config, size: nat, s: nat)
    requires 0 < size
    ensures ViewStep(cfg, s, ViewOf(st, s), Lookup(size), ViewOf(WithTable(st, cfg, size), s))
    ensures ViewOf(st, s).table.None? && ViewOf(WithTable(st, cfg, size), s).table.Some? ==> 0 < s
  {
  }

  lemma AddStepsView(st: State, cfg: Config, id: ContentKey, row: Row, s: nat)
    ensures ViewStep(cfg, s, ViewOf(st, s), Add(id, row), ViewOf(WithRow(st, cfg, id, row), s))
  {
  }

  lemma RemoveStepsView(st: State, cfg: Config, keys: seq<ContentKey>, s: nat)
    requires Possible(st, Remove(keys))
    ensures ViewStep(cfg, s, ViewOf(st, s), Remove(keys), ViewOf(WithoutRows(st, cfg, keys), s))
  {
  }

  lemma ApplyStepsView(st: State, cfg: Config, e: Event, s: nat)
    requires Possible(st, e)
    ensures ViewStep(cfg, s, ViewOf(st, s), e, ViewOf(Apply(st, cfg, e), s))
    ensures ViewOf(st, s).table.None? && ViewOf(Apply(st, cfg, e), s).table.Some? ==> 0 < s
  {
    match e {
      case Lookup(size) => LookupStepsView(st, cfg, size, s);
      case Add(id, row) => AddStepsView(st, cfg, id, row, s);
      case Remove(keys) => RemoveStepsView(st, cfg, keys, s);
    }
  }

  /** The views of a size along a run. */
  ghost function Views(states: seq<State>, s: nat): (v: seq<View>)
    ensures |v| == |states|
  {
    seq(|states|, i requires 0 <= i < |states| => ViewOf(states[i], s))
  }

  ghost predicate ViewStart(cfg: Config, s: nat, v: View) {
    && (v.table.Some? ==> 0 < s && v.table.value == TableOf(cfg.scheme, s, v.keys))
    && v.sketch == SketchOf(cfg.sketcher, v.keys) && v.nKeys == |v.keys|
  }

  ghost predicate ViewNext(cfg: Config, s: nat, v: View, e: Event, w: View) {
    ViewStep(cfg, s, v, e, w) && (v.table.None? && w.table.Some? ==> 0 < s)
  }

  ghost predicate ViewRun(cfg: Config, s: nat, v: seq<View>, h: seq<Event>) {
    && |v| == |h| + 1 && ViewStart(cfg, s, v[0])
    && forall i :: 0 <= i < |h| ==> ViewNext(cfg, s, v[i], h[i], v[i + 1])
  }

  lemma ExactStarts(st: State, cfg: Config, s: nat)
    requires IsExact(st, cfg)
    ensures ViewStart(cfg, s, ViewOf(st, s))
  {
  }

  lemma StepIsNext(cfg: Config, a: State, e: Event, b: State, s: nat)
    requires Step(cfg, a, e, b)
    ensures ViewNext(cfg, s, ViewOf(a, s), e, ViewOf(b, s))
  {
    ApplyStepsView(a, cfg, e, s);
  }

  lemma ViewsRun(cfg: Config, states: seq<State>, h: seq<Event>, s: nat)
    requires Run(cfg, states, h)
    ensures ViewRun(cfg, s, Views(states, s), h)
  {
    ExactStarts(states[0], cfg, s);
    forall i | 0 <= i < |h| ensures ViewNext(cfg, s, Views(states, s)[i], h[i], Views(states, s)[i + 1]) {
      StepIsNext(cfg, states[i], h[i], states[i + 1], s);
    }
  }

  ghost predicate AgainIn(v: seq<View>, h: seq<Event>, i: nat)
    requires i < |h| && i < |v|
  {
    h[i].Add? && h[i].id in v[i].keys && v[i].table.Some?
  }

  /** One of the first i events stores a row again while the table is cached. */
  ghost predicate AgainBefore(v: seq<View>, h: seq<Event>, i: nat)
    requires i <= |h| && i <= |v|
  {
    i > 0 && (AgainBefore(v, h, i - 1) || AgainIn(v, h, i - 1))
  }

  lemma {:induction false} AgainSome(v: seq<View>, h: seq<Event>, i: nat)
    requires i <= |h| && i <= |v|
    ensures AgainBefore(v, h, i) <==> exists j: nat :: j < i && AgainIn(v, h, j)
  {
    if i > 0 {
      AgainSome(v, h, i - 1);
    }
  }

  lemma SurplusNext(cfg: Config, s: nat, v: View, e: Event, w: View, was: Net<ContentKey>, again: bool)
    returns (d: Net<ContentKey>)
    requires Lawful(cfg.scheme) && ViewNext(cfg, s, v, e, w) && HasSurplus(cfg.scheme, s, v.table, v.keys, was, again)
    ensures HasSurplus(cfg.scheme, s, w.table, w.keys, d, again || (e.Add? && e.id in v.keys && v.table.Some?))
  {
    match e {
      case Lookup(size) =>
        d := was;
        NoSurplus(cfg.scheme, s, v.keys);
      case Add(id, row) =>
        d := SurplusAfterAdd(cfg.scheme, s, v.table, v.keys, id, was, again);
      case Remove(keys) =>
        d := was;
        SurplusAfterRemove(cfg.scheme, s, v.table, v.keys, keys, was, again);
    }
  }

  lemma StartsWithout(cfg: Config, s: nat, v: View) returns (d: Net<ContentKey>)
    requires Lawful(cfg.scheme) && ViewStart(cfg, s, v)
    ensures HasSurplus(cfg.scheme, s, v.table, v.keys, d, false)
  {
    d := map[];
    NoSurplus(cfg.scheme, s, v.keys);
  }

  /**
   A cached table always encodes the rows plus a surplus that only ever grows: there is one as soon
   as a row has been stored again while the table was cached, and none before.
   */
  lemma {:induction false} TableHasSurplus(cfg: Config, s: nat, v: seq<View>, h: seq<Event>, i: nat)
    returns (d: Net<ContentKey>)
    requires Lawful(cfg.scheme) && ViewRun(cfg, s, v, h) && i <= |h|
    ensures HasSurplus(cfg.scheme, s, v[i].table, v[i].keys, d, AgainBefore(v, h, i))
  {
    if i == 0 {
      d := StartsWithout(cfg, s, v[0]);
    } else {
      var was := TableHasSurplus(cfg, s, v, h, i - 1);
      assert ViewNext(cfg, s, v[i - 1], h[i - 1], v[i]);
      d := SurplusNext(cfg, s, v[i - 1], h[i - 1], v[i], was, AgainBefore(v, h, i - 1));
    }
  }

  /**
   In every run a cached table equals the table computed from scratch if and only if no
   row has been stored again while the table was cached.
   */
  lemma CachedTablesExact(cfg: Config, states: seq<State>, h: seq<Event>, s: nat)
    requires Usable(cfg.scheme) && Run(cfg, states, h) && s in states[|h|].iblts
    ensures states[|h|].iblts[s] == TableOf(cfg.scheme, s, states[|h|].rows.Keys) <==> !EverStoredAgain(states, h, s)
  {
    ViewsRun(cfg, states, h, s);
    var d := TableHasSurplus(cfg, s, Views(states, s), h, |h|);
    ExactIffNotAgain(cfg.scheme, s, Cached(states[|h|].iblts, s), states[|h|].rows.Keys, d,
                     AgainBefore(Views(states, s), h, |h|));
    AgainMeansStoredAgain(states, h, s);
  }

  lemma AgainMeansStoredAgain(states: seq<State>, h: seq<Event>, s: nat)
    requires |h| < |states|
    ensures EverStoredAgain(states, h, s) <==> AgainBefore(Views(states, s), h, |h|)
  {
    AgainSome(Views(states, s), h, |h|);
    forall i: nat | i < |h| ensures AgainIn(Views(states, s), h, i) <==> StoredAgain(states, h, i, s) {
    }
  }

  /** So runs that only add rows they do not hold keep every cached table exact. */
  lemma FreshAddsKeepTables(cfg: Config, states: seq<State>, h: seq<Event>)
    requires Usable(cfg.scheme) && Run(cfg, states, h)
    requires forall i :: 0 <= i < |h| && h[i].Add? ==> h[i].id !in states[i].rows
    ensures forall s :: s in states[|h|].iblts ==> states[|h|].iblts[s] == TableOf(cfg.scheme, s, states[|h|].rows.Keys)
  {
    forall s | s in states[|h|].iblts ensures states[|h|].iblts[s] == TableOf(cfg.scheme, s, states[|h|].rows.Keys) {
      CachedTablesExact(cfg, states, h, s);
    }
  }

  /* ---------- the sketch and the counter ---------- */

  /** A deletion makes the store compute the sketch and the counter anew. */
  ghost predicate Recomputes(v: View, e: Event) {
    e.Remove? && e.keys != [] && v.caching
  }

  /** What the sketch and the counter owe to rows that are no longer there or were stored again. */
  datatype Debt = Debt(lingering: set<ContentKey>, excess: nat)

  /** A recomputation clears the debt, other deletions and repeated additions add to it. */
  ghost function NextDebt(d: Debt, v: View, e: Event): Debt {
    if Recomputes(v, e) then Debt({}, 0)
    else match e
         case Lookup(size) => d
         case Add(id, row) => if id in v.keys then Debt(d.lingering, d.excess + 1) else d
         case Remove(keys) => Debt(d.lingering + AllEntries(keys), d.excess + |keys|)
  }

  /** The debt after the first i events, counted from the last recomputation. */
  ghost function DebtAfter(v: seq<View>, h: seq<Event>, i: nat): Debt
    requires i <= |h| < |v|
  {
    if i == 0 then Debt({}, 0) else NextDebt(DebtAfter(v, h, i - 1), v[i - 1], h[i - 1])
  }

  /** The sketch is that of the rows and the lingering keys, and the counter exceeds the rows by the excess. */
  ghost predicate Owes(v: View, cfg: Config, d: Debt) {
    v.sketch == SketchOf(cfg.sketcher, v.keys + d.lingering) && v.nKeys == |v.keys| + d.excess
  }

  lemma AddOwes(cfg: Config, s: nat, v: View, e: Event, w: View, d: Debt)
    requires e.Add? && ViewStep(cfg, s, v, e, w) && Owes(v, cfg, d)
    ensures Owes(w, cfg, NextDebt(d, v, e))
  {
    WithKeyIsSketch(cfg.sketcher, v.keys + d.lingering, e.id);
    assert w.keys + d.lingering == v.keys + d.lingering + {e.id};
    assert e.id in v.keys ==> w.keys == v.keys;
  }

  lemma RemoveOwes(cfg: Config, s: nat, v: View, e: Event, w: View, d: Debt)
    requires e.Remove? && ViewStep(cfg, s, v, e, w) && Owes(v, cfg, d)
    ensures Owes(w, cfg, NextDebt(d, v, e))
  {
    RestOfSet(v.keys, AllEntries(e.keys), d.lingering);
    assert w.keys + {} == w.keys;
  }

  lemma StepOwes(cfg: Config, s: nat, v: View, e: Event, w: View, d: Debt)
    requires ViewStep(cfg, s, v, e, w) && Owes(v, cfg, d)
    ensures Owes(w, cfg, NextDebt(d, v, e))
  {
    match e {
      case Lookup(size) =>
      case Add(id, row) => AddOwes(cfg, s, v, e, w, d);
      case Remove(keys) => RemoveOwes(cfg, s, v, e, w, d);
    }
  }

  lemma {:induction false} DebtExplains(cfg: Config, s: nat, v: seq<View>, h: seq<Event>, i: nat)
    requires ViewRun(cfg, s, v, h) && i <= |h|
    ensures Owes(v[i], cfg, DebtAfter(v, h, i))
  {
    if i == 0 {
      assert v[0].keys + {} == v[0].keys;
    } else {
      DebtExplains(cfg, s, v, h, i - 1);
      assert ViewNext(cfg, s, v[i - 1], h[i - 1], v[i]);
      StepOwes(cfg, s, v[i - 1], h[i - 1], v[i], DebtAfter(v, h, i - 1));
    }
  }

  /** The debt at the end of a run. */
  ghost function DebtOf(states: seq<State>, h: seq<Event>): Debt
    requires |h| < |states|
  {
    DebtAfter(Views(states, 0), h, |h|)
  }

  /** In every run, repeated additions included, the sketch and the counter are off by exactly the debt. */
  lemma SketchAndCounter(cfg: Config, states: seq<State>, h: seq<Event>)
    requires Run(cfg, states, h)
    ensures var now, debt := states[|h|], DebtOf(states, h);
            && now.sketch == SketchOf(cfg.sketcher, now.rows.Keys + debt.lingering)
            && now.nKeys == |now.rows.Keys| + debt.excess
  {
    ViewsRun(cfg, states, h, 0);
    DebtExplains(cfg, 0, Views(states, 0), h, |h|);
  }

  /** So the sketch never exceeds the true sketch and the counter is never below the number of rows. */
  lemma SketchBounds(cfg: Config, states: seq<State>, h: seq<Event>)
    requires Run(cfg, states, h)
    ensures Below(states[|h|].sketch, SketchOf(cfg.sketcher, states[|h|].rows.Keys))
    ensures states[|h|].nKeys >= |states[|h|].rows.Keys|
  {
    SketchAndCounter(cfg, states, h);
    var keys := states[|h|].rows.Keys;
    SketchAntitone(cfg.sketcher, keys, keys + DebtOf(states, h).lingering);
  }

  /** Event j adds to no debt: it adds a row that is new, or deletes rows while some table is cached. */
  ghost predicate Careful(v: View, e: Event) {
    match e
    case Lookup(size) => true
    case Add(id, row) => id !in v.keys
    case Remove(keys) => keys == [] || v.caching
  }

  /** A clear debt stays clear as long as the events are careful. */
  lemma {:induction false} StaysClear(v: seq<View>, h: seq<Event>, j: nat, i: nat)
    requires j <= i <= |h| < |v| && DebtAfter(v, h, j) == Debt({}, 0) && forall k :: j <= k < i ==> Careful(v[k], h[k])
    ensures DebtAfter(v, h, i) == Debt({}, 0)
  {
    if j < i {
      StaysClear(v, h, j, i - 1);
    }
  }

  ghost predicate CarefulFrom(states: seq<State>, h: seq<Event>, j: nat)
    requires |h| < |states|
  {
    forall k :: j <= k < |h| ==> Careful(ViewOf(states[k], 0), h[k])
  }

  /**
   From the start, or from any deletion while some table is cached, whatever happened before it, the sketch and the
   counter are exact as long as only new rows are added and rows are deleted only while some table is cached.
   */
  lemma ExactWhileCareful(cfg: Config, states: seq<State>, h: seq<Event>, j: nat)
    requires Run(cfg, states, h) && j <= |h| && CarefulFrom(states, h, j)
    requires j == 0 || Recomputes(ViewOf(states[j - 1], 0), h[j - 1])
    ensures states[|h|].sketch == SketchOf(cfg.sketcher, states[|h|].rows.Keys)
    ensures states[|h|].nKeys == |states[|h|].rows.Keys|
  {
    SketchAndCounter(cfg, states, h);
    StaysClear(Views(states, 0), h, j, |h|);
    assert states[|h|].rows.Keys + {} == states[|h|].rows.Keys;
  }
}
