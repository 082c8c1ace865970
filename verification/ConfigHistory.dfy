/**
 Versioned loyalty rules: Upsert under optimistic concurrency, forward-only rollback, and writers whose
 read and write are separate statements.
 */
module ConfigHistory {
  import opened Rows
  import opened LoyaltyRules
  import opened Loyalty

  /** loyalty_configs by store, and loyalty_config_history by store and version. */
  datatype Table = Table(live: map<int, Live>, history: map<(int, int), Rules>)

  const NO_RULES: Table := Table(map[], map[])

  function VersionOf(t: Table, store: int): int {
    if store in t.live then t.live[store].version else 0
  }

  /** The writes of Upsert after it read `current`; None is the unique violation on (store, version). */
  function Save(t: Table, store: int, rules: Rules, current: int): Option<Table> {
    if (store, current + 1) in t.history then None
    else Some(Table(t.live[store := Live(rules, current + 1)], t.history[(store, current + 1) := rules]))
  }

  /** Versions are exactly 1..n, and the live rules are entry n. */
  ghost predicate StoreOk(t: Table, store: int) {
    && 0 <= VersionOf(t, store)
    && (forall v ::
          (store, v) in t.history <==> 1 <= v <= VersionOf(t, store))
    && (store in t.live ==>
          1 <= VersionOf(t, store) && t.live[store].rules == t.history[(store, VersionOf(t, store))])
  }

  ghost predicate TableOk(t: Table) {
    && (forall store :: StoreOk(t, store))
    && (forall key | key in t.history :: ValidRules(t.history[key]))
  }

  ghost predicate AppendOnly(before: Table, after: Table) {
    && (forall key | key in before.history :: key in after.history && after.history[key] == before.history[key])
    && (forall store | store in before.live :: store in after.live)
  }

  /** A write at the current version appends one entry and makes it live. */
  lemma SaveAppends(t: Table, store: int, rules: Rules, current: int)
    requires TableOk(t) && ValidRules(rules) && 0 <= current <= VersionOf(t, store)
    ensures Save(t, store, rules, current).Some? <==> current == VersionOf(t, store)
    ensures Save(t, store, rules, current).Some? ==>
              var next := Save(t, store, rules, current).value;
              TableOk(next) && AppendOnly(t, next) && VersionOf(next, store) == current + 1
  {
    assert StoreOk(t, store);
    if current == VersionOf(t, store) {
      var next := Save(t, store, rules, current).value;
      forall s
        ensures StoreOk(next, s)
      {
        assert StoreOk(t, s);
      }
    }
  }

  // ---- The repository and the handlers over it ----

  datatype Written =
    | Saved(version: int) | VersionConflict | InvalidRules | UnknownMechanic | InvalidVersion | VersionNotFound

  class LoyaltyConfigRepository {
    var live: map<int, Live>
    var history: map<(int, int), Rules>

    function State(): Table
      reads this
    {
      Table(live, history)
    }

    ghost predicate Valid()
      reads this
    {
      TableOk(State())
    }

    constructor ()
      ensures Valid() && State() == NO_RULES
    {
      live, history := map[], map[];
    }

    method Upsert(store: int, rules: Rules, expected: Option<int>) returns (written: Written)
      requires Valid() && ValidRules(rules)
      modifies this
      ensures Valid() && AppendOnly(old(State()), State())
      ensures written == if expected.Some? && expected.value != VersionOf(old(State()), store) then VersionConflict
                         else Saved(VersionOf(old(State()), store) + 1)
      ensures written == VersionConflict ==> State() == old(State())
      ensures written.Saved? ==>
                && live == old(live)[store := Live(rules, written.version)]
                && history == old(history)[(store, written.version) := rules]
                && (store, written.version) !in old(history)
    {
      assert StoreOk(State(), store);
      SaveAppends(State(), store, rules, VersionOf(State(), store));
      var current := 0;
      if store in live {
        current := live[store].version;
      }
      if expected.Some? && expected.value != current {
        return VersionConflict;
      }
      live := live[store := Live(rules, current + 1)];
      history := history[(store, current + 1) := rules];
      return Saved(current + 1);
    }

    /** History of a store, newest version first. */
    method ListHistory(store: int) returns (list: seq<(int, Rules)>)
      requires Valid()
      ensures |list| == VersionOf(State(), store)
      ensures forall i | 0 <= i < |list| ::
                list[i].0 == |list| - i && (store, list[i].0) in history && list[i].1 == history[(store, list[i].0)]
    {
      assert StoreOk(State(), store);
      list := [];
      var v := VersionOf(State(), store);
      while v > 0
        invariant 0 <= v && |list| == VersionOf(State(), store) - v
        invariant forall i | 0 <= i < |list| ::
                    && list[i].0 == VersionOf(State(), store) - i && (store, list[i].0) in history
                    && list[i].1 == history[(store, list[i].0)]
      {
        list := list + [(v, history[(store, v)])];
        v := v - 1;
      }
    }

    /** handlePutLoyaltyConfig: reject invalid rules, then an unknown mechanic, else write them. */
    method Put(store: int, rules: Rules, expected: Option<int>) returns (written: Written)
      requires Valid()
      modifies this
      ensures Valid() && AppendOnly(old(State()), State())
      ensures written == InvalidRules <==> !InRange(rules)
      ensures written == UnknownMechanic <==> InRange(rules) && !ValidRules(rules)
      ensures written.Saved? || written in {InvalidRules, UnknownMechanic, VersionConflict}
      ensures written.Saved? <==> State() != old(State())
      ensures written.Saved? ==>
                && written.version == VersionOf(old(State()), store) + 1 == VersionOf(State(), store)
                && live == old(live)[store := Live(rules, written.version)]
                && history == old(history)[(store, written.version) := rules]
      ensures written == VersionConflict <==>
                ValidRules(rules) && expected.Some? && expected.value != VersionOf(old(State()), store)
    {
      if !InRange(rules) {
        return InvalidRules;
      }
      if rules.mechanic != MECHANIC {
        return UnknownMechanic;
      }
      written := Upsert(store, rules, expected);
      assert written.Saved? ==> (store, written.version) in history;
    }

    /** handleRollbackLoyaltyConfig: find the version, write its rules again as a new one. */
    method Rollback(store: int, version: int, expected: Option<int>) returns (written: Written)
      requires Valid()
      modifies this
      ensures Valid() && AppendOnly(old(State()), State())
      ensures written == InvalidVersion <==> version <= 0
      ensures written == VersionNotFound <==> version > 0 && (store, version) !in old(history)
      ensures written.Saved? || written in {InvalidVersion, VersionNotFound, VersionConflict}
      ensures written.Saved? ==>
                && written.version == VersionOf(old(State()), store) + 1 == VersionOf(State(), store)
                && live == old(live)[store := Live(old(history)[(store, version)], written.version)]
                && history == old(history)[(store, written.version) := old(history)[(store, version)]]
      ensures !written.Saved? ==> State() == old(State())
      ensures written == VersionConflict <==>
                && (store, version) in old(history)
                && expected.Some? && expected.value != VersionOf(old(State()), store)
    {
      assert StoreOk(State(), store);
      if version <= 0 {
        return InvalidVersion;
      }
      var list := ListHistory(store);
      var target: Option<Rules> := None;
      for i := 0 to |list|
        invariant target == if |list| - i < version <= |list| then Some(history[(store, version)]) else None
      {
        if list[i].0 == version {
          target := Some(list[i].1);
          break;
        }
      }
      if target == None {
        return VersionNotFound;
      }
      written := Upsert(store, target.value, expected);
    }
  }

  // ---- Concurrent writers ----

  /**
   A write under way: what it will store, the version it restores if it is a rollback, and the current
   version once it has read it. Reading an existing row locks it; the first-ever write has no row to lock.
   */
  datatype Writer = Writer(store: int, rules: Rules, restores: Option<int>, expected: Option<int>, current: Option<int>)

  datatype Sys = Sys(table: Table, writers: map<int, Writer>)

  datatype Action =
    | OpenPut(w: int, store: int, rules: Rules, expected: Option<int>)
    | OpenRollback(w: int, store: int, version: int, expected: Option<int>)
    | ReadVersion(w: int)
    | Write(w: int)
    | Lose(w: int)

  predicate HoldsRow(writer: Writer) {
    writer.current.Some? && writer.current.value >= 1
  }

  predicate Blocked(sys: Sys, w: int)
    requires w in sys.writers
  {
    exists other | other in sys.writers ::
      other != w && sys.writers[other].store == sys.writers[w].store && HoldsRow(sys.writers[other])
  }

  function Next(sys: Sys, action: Action): Sys {
    match action
    case OpenPut(w, store, rules, expected) =>
      if w in sys.writers || !ValidRules(rules) then sys
      else sys.(writers := sys.writers[w := Writer(store, rules, None, expected, None)])
    case OpenRollback(w, store, version, expected) =>
      if w in sys.writers || (store, version) !in sys.table.history then sys
      else sys.(writers :=
        sys.writers[w := Writer(store, sys.table.history[(store, version)], Some(version), expected, None)])
    case ReadVersion(w) =>
      if w !in sys.writers || sys.writers[w].current.Some? || Blocked(sys, w) then sys
      else
        var writer := sys.writers[w];
        var current := VersionOf(sys.table, writer.store);
        if writer.expected.Some? && writer.expected.value != current then sys.(writers := sys.writers - {w})
        else sys.(writers := sys.writers[w := writer.(current := Some(current))])
    case Write(w) =>
      if w !in sys.writers || sys.writers[w].current.None? || Blocked(sys, w) then sys
      else
        var writer := sys.writers[w];
        var saved := Save(sys.table, writer.store, writer.rules, writer.current.value);
        Sys(if saved.Some? then saved.value else sys.table, sys.writers - {w})
    case Lose(w) => sys.(writers := sys.writers - {w})
  }

  ghost predicate WriterOk(t: Table, writer: Writer) {
    && ValidRules(writer.rules)
    && (writer.restores.Some? ==>
          && (writer.store, writer.restores.value) in t.history
          && t.history[(writer.store, writer.restores.value)] == writer.rules)
    && (writer.current.Some? ==>
          && 0 <= writer.current.value <= VersionOf(t, writer.store)
          && (writer.expected.Some? ==> writer.expected.value == writer.current.value)
          && (HoldsRow(writer) ==> writer.current.value == VersionOf(t, writer.store)))
  }

  ghost predicate SysOk(sys: Sys) {
    && TableOk(sys.table)
    && (forall w | w in sys.writers :: WriterOk(sys.table, sys.writers[w]))
    && (forall w | w in sys.writers && HoldsRow(sys.writers[w]) :: !Blocked(sys, w))
  }

  /** A write that goes through was made against the version it had read and appends exactly its entry. */
  lemma WriteIsNotLost(sys: Sys, w: int)
    requires SysOk(sys) && w in sys.writers && Next(sys, Write(w)).table != sys.table
    ensures var writer, before, after := sys.writers[w], sys.table, Next(sys, Write(w)).table;
            var n := VersionOf(before, writer.store);
            && writer.current == Some(n) && (writer.expected.Some? ==> writer.expected.value == n)
            && after.live == before.live[writer.store := Live(writer.rules, n + 1)]
            && after.history == before.history[(writer.store, n + 1) := writer.rules]
            && (writer.restores.Some? ==>
                  after.history[(writer.store, n + 1)] == before.history[(writer.store, writer.restores.value)])
  {
    var writer := sys.writers[w];
    SaveAppends(sys.table, writer.store, writer.rules, writer.current.value);
  }

  /** What a writer read stays current until it writes; only a store's first-ever write can come too late. */
  lemma OnlyFirstWriteIsLate(sys: Sys, w: int)
    requires SysOk(sys) && w in sys.writers && sys.writers[w].current.Some?
    ensures var store, read := sys.writers[w].store, sys.writers[w].current.value;
            && (read >= 1 ==>
                  VersionOf(sys.table, store) == read && VersionOf(Next(sys, Write(w)).table, store) == read + 1)
            && (read < 1 && VersionOf(sys.table, store) != read ==> Next(sys, Write(w)).table == sys.table)
  {
    assert WriterOk(sys.table, sys.writers[w]);
    SaveAppends(sys.table, sys.writers[w].store, sys.writers[w].rules, sys.writers[w].current.value);
  }

  lemma WriteKeeps(sys: Sys, w: int)
    requires SysOk(sys)
    ensures SysOk(Next(sys, Write(w))) && AppendOnly(sys.table, Next(sys, Write(w)).table)
  {
    var next := Next(sys, Write(w));
    if w in sys.writers && sys.writers[w].current.Some? && !Blocked(sys, w) {
      var writer := sys.writers[w];
      SaveAppends(sys.table, writer.store, writer.rules, writer.current.value);
      forall other | other in next.writers
        ensures WriterOk(next.table, next.writers[other])
      {
        assert WriterOk(sys.table, sys.writers[other]);
        assert other != w;
      }
      forall other | other in next.writers && HoldsRow(next.writers[other])
        ensures !Blocked(next, other)
      {
        assert !Blocked(sys, other);
      }
    }
  }

  lemma OthersKeep(sys: Sys, action: Action)
    requires SysOk(sys) && !action.Write?
    ensures SysOk(Next(sys, action)) && Next(sys, action).table == sys.table
  {
    var next := Next(sys, action);
    forall w | w in next.writers
      ensures WriterOk(next.table, next.writers[w])
    {
      if w in sys.writers {
        assert WriterOk(sys.table, sys.writers[w]) && StoreOk(sys.table, sys.writers[w].store);
      }
    }
    forall w | w in next.writers && HoldsRow(next.writers[w])
      ensures !Blocked(next, w)
    {
      if action.ReadVersion? && action.w in sys.writers && !Blocked(sys, action.w) {
        assert w in sys.writers;
      }
    }
  }

  lemma NextKeeps(sys: Sys, action: Action)
    requires SysOk(sys)
    ensures SysOk(Next(sys, action)) && AppendOnly(sys.table, Next(sys, action).table)
  {
    if action.Write? {
      WriteKeeps(sys, action.w);
    } else {
      OthersKeep(sys, action);
    }
  }

  function Exec(sys: Sys, actions: seq<Action>): Sys {
    if actions == [] then sys else Next(Exec(sys, actions[..|actions| - 1]), actions[|actions| - 1])
  }

  /** Whatever writers interleave: contiguous versions, live rules equal to the last entry, entries never changed. */
  lemma {:induction false} HistoryKept(sys: Sys, actions: seq<Action>)
    requires SysOk(sys)
    ensures SysOk(Exec(sys, actions)) && AppendOnly(sys.table, Exec(sys, actions).table)
  {
    if actions != [] {
      var before := Exec(sys, actions[..|actions| - 1]);
      HistoryKept(sys, actions[..|actions| - 1]);
      NextKeeps(before, actions[|actions| - 1]);
    }
  }

  lemma HistoryContiguous(actions: seq<Action>, store: int)
    ensures StoreOk(Exec(Sys(NO_RULES, map[]), actions).table, store)
  {
    HistoryKept(Sys(NO_RULES, map[]), actions);
  }
}
