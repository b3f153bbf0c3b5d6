/** The tunables one by one, with their ranges, and which readings pass. */
module TuningRanges {
  import opened DbTuning
  import opened Text

  const KiB := 1024.0
  const MiB := 1024.0 * 1024.0
  const GiB := 1024.0 * 1024.0 * 1024.0
  const TiB := 1024.0 * 1024.0 * 1024.0 * 1024.0

  predicate MariaDBTunable(name: string, kind: Kind, lo: real, hi: real) {
    || (name == "max_connections" && kind == KindInt && lo == 10.0 && hi == 100000.0)
    || (name == "innodb_buffer_pool_size" && kind == KindBytes && lo == 5.0 * MiB && hi == 8.0 * TiB)
    || (name == "innodb_log_file_size" && kind == KindBytes && lo == MiB && hi == TiB)
    || (name == "max_allowed_packet" && kind == KindBytes && lo == KiB && hi == GiB)
    || (name == "table_open_cache" && kind == KindInt && lo == 1.0 && hi == 1000000.0)
    || (name == "tmp_table_size" && kind == KindBytes && lo == KiB && hi == 4.0 * GiB)
    || (name == "slow_query_log" && kind == KindBool && lo == 0.0 && hi == 1.0)
    || (name == "long_query_time" && kind == KindFloat && lo == 0.0 && hi == 3600.0)
  }

  predicate PostgresTunable(name: string, kind: Kind, lo: real, hi: real) {
    || (name == "max_connections" && kind == KindInt && lo == 10.0 && hi == 100000.0)
    || (name == "shared_buffers" && kind == KindBytes && lo == MiB && hi == 8.0 * TiB)
    || (name == "work_mem" && kind == KindBytes && lo == 64.0 * KiB && hi == 16.0 * GiB)
    || (name == "maintenance_work_mem" && kind == KindBytes && lo == MiB && hi == 16.0 * GiB)
    || (name == "effective_cache_size" && kind == KindBytes && lo == MiB && hi == 8.0 * TiB)
    || (name == "wal_buffers" && kind == KindBytes && lo == 32.0 * KiB && hi == GiB)
    || (name == "random_page_cost" && kind == KindFloat && lo == 0.1 && hi == 1000.0)
  }

  predicate Tunable(engine: string, name: string, kind: Kind, lo: real, hi: real) {
    || (engine == "mariadb" && MariaDBTunable(name, kind, lo, hi))
    || (engine == "postgres" && PostgresTunable(name, kind, lo, hi))
  }

  lemma EveryEntry(i: nat)
    requires i < |Registry()|
    ensures var p := Registry()[i]; Tunable(p.engine, p.name, p.kind, p.min, p.max)
  {
  }

  lemma MariaDBEntry(name: string, kind: Kind, lo: real, hi: real) returns (i: nat)
    requires MariaDBTunable(name, kind, lo, hi)
    ensures i < |Registry()| && Registry()[i] == Param(name, "mariadb", kind, lo, hi)
  {
    i := if name == "max_connections" then 0
         else if name == "innodb_buffer_pool_size" then 1
         else if name == "innodb_log_file_size" then 2
         else if name == "max_allowed_packet" then 3
         else if name == "table_open_cache" then 4
         else if name == "tmp_table_size" then 5
         else if name == "slow_query_log" then 6
         else 7;
  }

  lemma PostgresEntry(name: string, kind: Kind, lo: real, hi: real) returns (i: nat)
    requires PostgresTunable(name, kind, lo, hi)
    ensures i < |Registry()| && Registry()[i] == Param(name, "postgres", kind, lo, hi)
  {
    i := if name == "max_connections" then 8
         else if name == "shared_buffers" then 9
         else if name == "work_mem" then 10
         else if name == "maintenance_work_mem" then 11
         else if name == "effective_cache_size" then 12
         else if name == "wal_buffers" then 13
         else 14;
  }

  lemma MariaDBOnce(name: string, kind: Kind, lo: real, hi: real, kind': Kind, lo': real, hi': real)
    requires MariaDBTunable(name, kind, lo, hi) && MariaDBTunable(name, kind', lo', hi')
    ensures kind == kind' && lo == lo' && hi == hi'
  {
  }

  lemma PostgresOnce(name: string, kind: Kind, lo: real, hi: real, kind': Kind, lo': real, hi': real)
    requires PostgresTunable(name, kind, lo, hi) && PostgresTunable(name, kind', lo', hi')
    ensures kind == kind' && lo == lo' && hi == hi'
  {
  }

  lemma {:induction false} LookupFinds(params: seq<Param>, engine: string, name: string, i: nat)
    requires i < |params| && params[i].engine == engine && params[i].name == name
    ensures Lookup(params, engine, name).Some?
  {
    if i > 0 {
      LookupFinds(params[1..], engine, name, i - 1);
    }
  }

  lemma {:induction false} LookupAmong(params: seq<Param>, engine: string, name: string)
    requires Lookup(params, engine, name).Some?
    ensures var p := Lookup(params, engine, name).value;
      p.engine == engine && p.name == name && exists i :: 0 <= i < |params| && params[i] == p
  {
    if params[0].engine != engine || params[0].name != name {
      LookupAmong(params[1..], engine, name);
      var i :| 0 <= i < |params[1..]| && params[1..][i] == Lookup(params, engine, name).value;
      assert params[i + 1] == params[1..][i];
    }
  }

  lemma LookupIs(engine: string, name: string, kind: Kind, lo: real, hi: real)
    ensures Lookup(Registry(), engine, name) == Some(Param(name, engine, kind, lo, hi)) <==>
      Tunable(engine, name, kind, lo, hi)
  {
    var found := Lookup(Registry(), engine, name);
    hide MariaDBTunable, PostgresTunable, Registry;
    if found.Some? {
      LookupAmong(Registry(), engine, name);
      var i :| 0 <= i < |Registry()| && Registry()[i] == found.value;
      EveryEntry(i);
    }
    if engine == "mariadb" && MariaDBTunable(name, kind, lo, hi) {
      var i := MariaDBEntry(name, kind, lo, hi);
      LookupFinds(Registry(), engine, name, i);
      MariaDBOnce(name, kind, lo, hi, found.value.kind, found.value.min, found.value.max);
    }
    if engine == "postgres" && PostgresTunable(name, kind, lo, hi) {
      var i := PostgresEntry(name, kind, lo, hi);
      LookupFinds(Registry(), engine, name, i);
      PostgresOnce(name, kind, lo, hi, found.value.kind, found.value.min, found.value.max);
    }
  }

  /** A reading in the range, or no number at all. */
  predicate Passes(n: Number, lo: real, hi: real) {
    n == NaN || (n.Finite? && lo <= n.r <= hi)
  }

  predicate ReadsWithin(engine: string, value: string, kind: Kind, lo: real, hi: real, parse: ParseFloat) {
    match kind
    case KindBool => if engine == "mariadb" then value == "0" || value == "1" else value == "on" || value == "off"
    case KindBytes => Bytes(value, parse).Some? && Passes(Bytes(value, parse).value, lo, hi)
    case _ => parse(value).Some? && Passes(parse(value).value, lo, hi)
  }

  /** A setting is accepted exactly when it is one of the tunables and its value,
      white space around it aside, reads as a number of its range or as NaN. */
  lemma AcceptedExactly(engine: string, name: string, value: string, parse: ParseFloat)
    ensures Valid(engine, name, value, parse) <==>
      exists kind, lo, hi ::
        Tunable(engine, name, kind, lo, hi) && TrimSpace(value) != ""
        && ReadsWithin(engine, TrimSpace(value), kind, lo, hi, parse)
  {
    var found, v := Lookup(Registry(), engine, name), TrimSpace(value);
    forall kind, lo, hi
      ensures found == Some(Param(name, engine, kind, lo, hi)) <==> Tunable(engine, name, kind, lo, hi)
    {
      LookupIs(engine, name, kind, lo, hi);
    }
    hide Tunable, TrimSpace, Bytes, ReadsWithin, Registry;
    if found.Some? {
      var p := found.value;
      LookupAmong(Registry(), engine, name);
      OnlyEngines(engine, name, p.kind, p.min, p.max);
      ValidIs(engine, name, value, p, parse);
      hide Lookup, Valid;
    }
  }

  lemma ValidIs(engine: string, name: string, value: string, p: Param, parse: ParseFloat)
    requires Lookup(Registry(), engine, name) == Some(p) && (engine == "mariadb" || engine == "postgres")
    ensures Valid(engine, name, value, parse) <==>
      TrimSpace(value) != "" && ReadsWithin(engine, TrimSpace(value), p.kind, p.min, p.max, parse)
  {
    hide Registry, Lookup, TrimSpace, Bytes;
  }

  lemma OnlyEngines(engine: string, name: string, kind: Kind, lo: real, hi: real)
    ensures Tunable(engine, name, kind, lo, hi) ==> engine == "mariadb" || engine == "postgres"
  {
  }

  /** Two values that look refused are not: NaN passes every range check, and a
      whole-number setting takes a fraction. */
  lemma NaNAndFractionPass(value: string, parse: ParseFloat)
    requires TrimSpace(value) == value != "" && parse(value).Some?
    requires parse(value).value == NaN || parse(value).value == Finite(151.5)
    ensures Valid("mariadb", "max_connections", value, parse)
  {
    hide Bytes, Registry, Lookup, TrimSpace;
    AcceptedExactly("mariadb", "max_connections", value, parse);
    assert Tunable("mariadb", "max_connections", KindInt, 10.0, 100000.0);
    assert ReadsWithin("mariadb", value, KindInt, 10.0, 100000.0, parse);
  }

  /** One of the letters, alone or before a b, in either case. */
  predicate Named(unit: string, lower: char, upper: char) {
    && 1 <= |unit| <= 2 && (unit[0] == lower || unit[0] == upper)
    && (|unit| == 2 ==> unit[1] == 'b' || unit[1] == 'B')
  }

  predicate IsUnit(unit: string, size: real) {
    || (size == 1.0 && (unit == "" || unit == "b" || unit == "B"))
    || (size == KiB && (Named(unit, 'k', 'K') || Named(unit, 'k', '\U{212A}')))
    || (size == MiB && Named(unit, 'm', 'M'))
    || (size == GiB && Named(unit, 'g', 'G'))
    || (size == TiB && Named(unit, 't', 'T'))
  }

  /** The units are binary, whatever their case. */
  lemma UnitsExactly(unit: string, size: real)
    ensures Unit(ToLower(unit)) == Some(size) <==> IsUnit(unit, size)
  {
    var low := ToLower(unit);
    assert |low| == |unit|;
    if |unit| == 1 {
      assert low == [low[0]] && unit == [unit[0]];
    } else if |unit| == 2 {
      assert low == [low[0], low[1]];
    }
  }
}
