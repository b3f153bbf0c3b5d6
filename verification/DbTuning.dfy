/** internal/dbtuning: the allowlist of database tunables and the MariaDB drop-in
    rendered from it.  `strconv.ParseFloat` is a parameter. */
module DbTuning {
  import opened Text

  datatype Kind = KindInt | KindBytes | KindBool | KindFloat

  datatype Param = Param(name: string, engine: string, kind: Kind, min: real, max: real)

  function Registry(): seq<Param> {
    [
      Param("max_connections", "mariadb", KindInt, 10.0, 100000.0),
      Param("innodb_buffer_pool_size", "mariadb", KindBytes, 5242880.0, 8796093022208.0),
      Param("innodb_log_file_size", "mariadb", KindBytes, 1048576.0, 1099511627776.0),
      Param("max_allowed_packet", "mariadb", KindBytes, 1024.0, 1073741824.0),
      Param("table_open_cache", "mariadb", KindInt, 1.0, 1000000.0),
      Param("tmp_table_size", "mariadb", KindBytes, 1024.0, 4294967296.0),
      Param("slow_query_log", "mariadb", KindBool, 0.0, 1.0),
      Param("long_query_time", "mariadb", KindFloat, 0.0, 3600.0),
      Param("max_connections", "postgres", KindInt, 10.0, 100000.0),
      Param("shared_buffers", "postgres", KindBytes, 1048576.0, 8796093022208.0),
      Param("work_mem", "postgres", KindBytes, 65536.0, 17179869184.0),
      Param("maintenance_work_mem", "postgres", KindBytes, 1048576.0, 17179869184.0),
      Param("effective_cache_size", "postgres", KindBytes, 1048576.0, 8796093022208.0),
      Param("wal_buffers", "postgres", KindBytes, 32768.0, 1073741824.0),
      Param("random_page_cost", "postgres", KindFloat, 0.1, 1000.0)
    ]
  }

  /** A parsed float: the comparisons of a NaN are all false. */
  datatype Number = Finite(r: real) | Infinite(positive: bool) | NaN

  type ParseFloat = string -> Option<Number>

  predicate Outside(n: Number, min: real, max: real) {
    match n
    case Finite(r) => r < min || r > max
    case Infinite(_) => true
    case NaN => false
  }

  function Scale(n: Number, mult: real): Number {
    if n.Finite? then Finite(n.r * mult) else n
  }

  function Lookup(params: seq<Param>, engine: string, name: string): Option<Param> {
    if params == [] then None
    else if params[0].engine == engine && params[0].name == name then Some(params[0])
    else Lookup(params[1..], engine, name)
  }

  predicate NumberChar(c: char) {
    c == '.' || '0' <= c <= '9'
  }

  /** The leading run of digits and dots. */
  function NumberPrefix(s: string): (n: nat)
    ensures n <= |s|
    ensures forall i :: 0 <= i < n ==> NumberChar(s[i])
    ensures n < |s| ==> !NumberChar(s[n])
  {
    if s != "" && NumberChar(s[0]) then 1 + NumberPrefix(s[1..]) else 0
  }

  /** `strings.ToLower`, as far as its result can be one of the units: the Kelvin
      sign is the one character outside ASCII that becomes a letter of theirs. */
  function ToLower(s: string): string {
    seq(|s|, i requires 0 <= i < |s| => if s[i] == '\U{212A}' then 'k' else LowerChar(s[i]))
  }

  function Unit(unit: string): Option<real> {
    if unit == "" || unit == "b" then Some(1.0)
    else if unit == "k" || unit == "kb" then Some(1024.0)
    else if unit == "m" || unit == "mb" then Some(1048576.0)
    else if unit == "g" || unit == "gb" then Some(1073741824.0)
    else if unit == "t" || unit == "tb" then Some(1099511627776.0)
    else None
  }

  /** `parseBytes`. */
  function Bytes(value: string, parse: ParseFloat): Option<Number> {
    var s := TrimSpace(value);
    var n := NumberPrefix(s);
    var numStr, unit := TrimSpace(s[..n]), ToLower(TrimSpace(s[n..]));
    if s == "" || numStr == "" then None
    else
      match (parse(numStr), Unit(unit))
      case (Some(x), Some(mult)) => Some(Scale(x, mult))
      case _ => None
  }

  method ParseBytes(value: string, parse: ParseFloat) returns (r: Option<Number>)
    ensures r == Bytes(value, parse)
  {
    hide TrimSpace, Unit, Scale, ToLower;
    var s := TrimSpace(value);
    if s == "" {
      return None;
    }
    var i := 0;
    while i < |s| && NumberChar(s[i])
      invariant i <= |s|
      invariant NumberPrefix(s) == i + NumberPrefix(s[i..])
    {
      i := i + 1;
    }
    var numStr, unit := TrimSpace(s[..i]), ToLower(TrimSpace(s[i..]));
    if numStr == "" {
      return None;
    }
    var n := parse(numStr);
    if n == None {
      return None;
    }
    var mult := Unit(unit);
    if mult == None {
      return None;
    }
    return Some(Scale(n.value, mult.value));
  }

  /** What `Validate` accepts. */
  predicate Valid(engine: string, name: string, value: string, parse: ParseFloat) {
    match Lookup(Registry(), engine, name)
    case None => false
    case Some(p) =>
      var v := TrimSpace(value);
      v != "" &&
      match p.kind
      case KindBool =>
        (engine == "mariadb" ==> v == "0" || v == "1") && (engine == "postgres" ==> v == "on" || v == "off")
      case KindBytes => Bytes(v, parse).Some? && !Outside(Bytes(v, parse).value, p.min, p.max)
      case _ => parse(v).Some? && !Outside(parse(v).value, p.min, p.max)
  }

  /** `Validate`. */
  method Validate(engine: string, name: string, value: string, parse: ParseFloat) returns (ok: bool)
    ensures ok <==> Valid(engine, name, value, parse)
  {
    hide TrimSpace, Registry;
    var p := Lookup(Registry(), engine, name);
    var v := TrimSpace(value);
    if p == None || v == "" {
      return false;
    }
    match p.value.kind {
      case KindBool =>
        if engine == "mariadb" && v != "0" && v != "1" {
          return false;
        }
        if engine == "postgres" && v != "on" && v != "off" {
          return false;
        }
      case KindBytes =>
        var f := ParseBytes(v, parse);
        if f == None || Outside(f.value, p.value.min, p.value.max) {
          return false;
        }
      case _ =>
        var f := parse(v);
        if f == None || Outside(f.value, p.value.min, p.value.max) {
          return false;
        }
    }
    return true;
  }

  type Settings = map<string, string>

  predicate AllValid(engine: string, kv: Settings, parse: ParseFloat) {
    forall k :: k in kv ==> Valid(engine, k, kv[k], parse)
  }

  /** `ValidateSet`. */
  method ValidateSet(engine: string, kv: Settings, parse: ParseFloat) returns (ok: bool)
    ensures ok <==> AllValid(engine, kv, parse)
  {
    var left := kv.Keys;
    while left != {}
      invariant left <= kv.Keys
      invariant forall k :: k in kv.Keys - left ==> Valid(engine, k, kv[k], parse)
      decreases left
    {
      var k :| k in left;
      var fine := Validate(engine, k, kv[k], parse);
      if !fine {
        return false;
      }
      left := left - {k};
    }
    return true;
  }

  /** The order of `sort.Strings`. */
  predicate Leq(a: string, b: string) {
    a == "" || (b != "" && (a[0] < b[0] || (a[0] == b[0] && Leq(a[1..], b[1..]))))
  }

  lemma {:induction false} LeqTotal(a: string, b: string)
    ensures Leq(a, b) || Leq(b, a)
  {
    if a != "" && b != "" && a[0] == b[0] {
      LeqTotal(a[1..], b[1..]);
    }
  }

  lemma {:induction false} LeqAntisymmetric(a: string, b: string)
    requires Leq(a, b) && Leq(b, a)
    ensures a == b
  {
    if a != "" && b != "" {
      LeqAntisymmetric(a[1..], b[1..]);
      assert a == [a[0]] + a[1..] && b == [b[0]] + b[1..];
    }
  }

  lemma {:induction false} LeqTransitive(a: string, b: string, c: string)
    requires Leq(a, b) && Leq(b, c)
    ensures Leq(a, c)
  {
    if a != "" && a[0] == b[0] && b[0] == c[0] {
      LeqTransitive(a[1..], b[1..], c[1..]);
    }
  }

  predicate Sorted(ks: seq<string>) {
    forall i, j :: 0 <= i < j < |ks| ==> Leq(ks[i], ks[j])
  }

  function Insert(k: string, ks: seq<string>): seq<string> {
    if ks == [] || Leq(k, ks[0]) then [k] + ks else [ks[0]] + Insert(k, ks[1..])
  }

  /** `sort.Strings`. */
  function SortStrings(ks: seq<string>): seq<string> {
    if ks == [] then [] else Insert(ks[0], SortStrings(ks[1..]))
  }

  lemma {:induction false} InsertAdds(k: string, ks: seq<string>)
    ensures multiset(Insert(k, ks)) == multiset(ks) + multiset{k}
  {
    hide Leq;
    if ks != [] && !Leq(k, ks[0]) {
      InsertAdds(k, ks[1..]);
      assert ks == [ks[0]] + ks[1..];
    }
  }

  lemma {:induction false} InsertSorted(k: string, ks: seq<string>)
    requires Sorted(ks)
    ensures Sorted(Insert(k, ks))
  {
    hide Leq;
    if ks == [] {
    } else if Leq(k, ks[0]) {
      forall j | 0 <= j < |ks|
        ensures Leq(k, ks[j])
      {
        if j > 0 {
          LeqTransitive(k, ks[0], ks[j]);
        }
      }
    } else {
      LeqTotal(k, ks[0]);
      InsertSorted(k, ks[1..]);
      InsertAdds(k, ks[1..]);
      var rest := Insert(k, ks[1..]);
      hide Insert;
      forall j | 0 <= j < |rest|
        ensures Leq(ks[0], rest[j])
      {
        assert rest[j] in multiset(rest);
        assert rest[j] == k || rest[j] in ks[1..];
      }
    }
  }

  lemma {:induction false} SortSorts(ks: seq<string>)
    ensures Sorted(SortStrings(ks)) && multiset(SortStrings(ks)) == multiset(ks)
  {
    if ks != [] {
      hide Insert, Sorted, Leq;
      SortSorts(ks[1..]);
      InsertSorted(ks[0], SortStrings(ks[1..]));
      InsertAdds(ks[0], SortStrings(ks[1..]));
      assert ks == [ks[0]] + ks[1..];
    }
  }

  lemma LeastFirst(a: seq<string>, s: string)
    requires Sorted(a) && s in multiset(a)
    ensures a != [] && Leq(a[0], s)
  {
    var i :| 0 <= i < |a| && a[i] == s;
    LeqTotal(s, s);
  }

  lemma TailElements(a: seq<string>)
    requires a != []
    ensures multiset(a[1..]) == multiset(a) - multiset{a[0]}
  {
    assert a == [a[0]] + a[1..];
  }

  lemma SameFirst(a: seq<string>, b: seq<string>)
    requires Sorted(a) && Sorted(b) && multiset(a) == multiset(b) && a != []
    ensures b != [] && a[0] == b[0]
  {
    hide Sorted, Leq;
    assert a[0] in multiset(b);
    LeastFirst(b, a[0]);
    assert b[0] in multiset(a);
    LeastFirst(a, b[0]);
    LeqAntisymmetric(a[0], b[0]);
  }

  lemma SortedTail(a: seq<string>)
    requires Sorted(a) && a != []
    ensures Sorted(a[1..])
  {
    hide Leq;
  }

  /** A sorted list is determined by its elements. */
  lemma {:induction false} SortedUnique(a: seq<string>, b: seq<string>)
    requires Sorted(a) && Sorted(b) && multiset(a) == multiset(b)
    ensures a == b
  {
    if a == [] {
      assert |multiset(b)| == 0;
    } else {
      hide Sorted, Leq;
      SameFirst(a, b);
      SortedTail(a);
      SortedTail(b);
      TailElements(a);
      TailElements(b);
      SortedUnique(a[1..], b[1..]);
      assert a == [a[0]] + a[1..] && b == [b[0]] + b[1..];
    }
  }

  /** `ks` lists every key of `kv` once: an iteration order. */
  ghost predicate IsOrder(ks: seq<string>, kv: Settings) {
    multiset(ks) == multiset(kv.Keys)
  }

  function Header(): string {
    "# Managed by Jabali (M46, ADR-0098). DO NOT EDIT —\n"
    + "# the reconciler rewrites this from db_tuning_settings.\n"
    + "[mysqld]\n"
  }

  function SettingLine(k: string, v: string): string {
    k + " = " + v
  }

  function Body(ks: seq<string>, kv: Settings): string
    requires forall k :: k in ks ==> k in kv
  {
    if ks == [] then "" else SettingLine(ks[0], kv[ks[0]]) + "\n" + Body(ks[1..], kv)
  }

  /** The drop-in of `kv`, from the keys in the order `ks`. */
  function RenderFrom(ks: seq<string>, kv: Settings): string
    requires IsOrder(ks, kv)
  {
    SortedMembers(ks, kv);
    Header() + Body(SortStrings(ks), kv)
  }

  lemma SortedMembers(ks: seq<string>, kv: Settings)
    requires IsOrder(ks, kv)
    ensures forall k :: k in SortStrings(ks) ==> k in kv
  {
    SortSorts(ks);
    forall k | k in SortStrings(ks)
      ensures k in kv
    {
      assert k in multiset(SortStrings(ks));
    }
  }

  lemma {:induction false} OrderExists(keys: set<string>) returns (ks: seq<string>)
    ensures multiset(ks) == multiset(keys)
  {
    if keys == {} {
      ks := [];
    } else {
      var k :| k in keys;
      var rest := OrderExists(keys - {k});
      ks := rest + [k];
      assert keys == (keys - {k}) + {k};
    }
  }

  ghost function SomeOrder(kv: Settings): (ks: seq<string>)
    ensures IsOrder(ks, kv)
  {
    assert exists ks :: IsOrder(ks, kv) by {
      var ks := OrderExists(kv.Keys);
      assert IsOrder(ks, kv);
    }
    var ks :| IsOrder(ks, kv);
    ks
  }

  /** The drop-in of `kv`. */
  ghost function Rendered(kv: Settings): string {
    RenderFrom(SomeOrder(kv), kv)
  }

  /** Rendering does not depend on the iteration order of the map. */
  lemma RenderedFromAny(ks: seq<string>, kv: Settings)
    requires IsOrder(ks, kv)
    ensures RenderFrom(ks, kv) == Rendered(kv)
  {
    RenderOrderFree(ks, SomeOrder(kv), kv);
  }

  /** `RenderMariaDBDropIn`: whatever order the map is iterated in. */
  method RenderMariaDBDropIn(kv: Settings) returns (text: string)
    ensures text == Rendered(kv)
  {
    hide Header, SortStrings, Body, RenderFrom, Rendered;
    var keys: seq<string> := [];
    var left := kv.Keys;
    while left != {}
      invariant left <= kv.Keys
      invariant multiset(keys) == multiset(kv.Keys - left)
      decreases left
    {
      var k :| k in left;
      assert kv.Keys - (left - {k}) == (kv.Keys - left) + {k};
      left, keys := left - {k}, keys + [k];
    }
    assert kv.Keys - left == kv.Keys;
    ghost var order := keys;
    keys := SortStrings(keys);
    SortedMembers(order, kv);
    text := Header();
    assert keys[0..] == keys;
    for i := 0 to |keys|
      invariant text + Body(keys[i..], kv) == Header() + Body(keys, kv)
    {
      assert keys[i] in keys;
      BodyStep(keys, i, kv, text);
      text := text + SettingLine(keys[i], kv[keys[i]]) + "\n";
    }
    BodyEnds(keys, kv, text);
    RenderFromIs(order, kv);
    RenderedFromAny(order, kv);
  }

  /** The drop-in: two comments, the section, then a line for each setting, by
      name. */
  lemma DropInText(kv: Settings, ks: seq<string>)
    requires IsOrder(ks, kv) && Sorted(ks)
    ensures forall k :: k in ks ==> k in kv
    ensures Rendered(kv) ==
      "# Managed by Jabali (M46, ADR-0098). DO NOT EDIT —\n"
      + "# the reconciler rewrites this from db_tuning_settings.\n"
      + "[mysqld]\n"
      + Concat(seq(|ks|, i requires 0 <= i < |ks| => ks[i] + " = " + kv[ks[i]] + "\n"))
  {
    SortSorts(ks);
    SortedUnique(SortStrings(ks), ks);
    RenderFromIs(ks, kv);
    RenderedFromAny(ks, kv);
    BodyLines(ks, kv);
    hide Rendered, RenderFrom, Body, Sorted, IsOrder;
  }

  function Concat(parts: seq<string>): string {
    if parts == [] then "" else parts[0] + Concat(parts[1..])
  }

  lemma {:induction false} BodyLines(ks: seq<string>, kv: Settings)
    requires forall k :: k in ks ==> k in kv
    ensures Body(ks, kv) == Concat(seq(|ks|, i requires 0 <= i < |ks| => ks[i] + " = " + kv[ks[i]] + "\n"))
  {
    if ks != [] {
      BodyLines(ks[1..], kv);
      var lines := seq(|ks|, i requires 0 <= i < |ks| => ks[i] + " = " + kv[ks[i]] + "\n");
      var rest := seq(|ks[1..]|, i requires 0 <= i < |ks[1..]| => ks[1..][i] + " = " + kv[ks[1..][i]] + "\n");
      assert lines[1..] == rest;
    }
  }

  lemma BodyStep(ks: seq<string>, i: nat, kv: Settings, text: string)
    requires i < |ks| && forall k :: k in ks ==> k in kv
    ensures ks[i] in ks
    ensures text + Body(ks[i..], kv) == text + SettingLine(ks[i], kv[ks[i]]) + "\n" + Body(ks[i + 1..], kv)
  {
    hide SettingLine;
    assert ks[i..][1..] == ks[i + 1..];
  }

  lemma BodyEnds(ks: seq<string>, kv: Settings, text: string)
    ensures text + Body(ks[|ks|..], kv) == text
  {
  }

  lemma RenderFromIs(ks: seq<string>, kv: Settings)
    requires IsOrder(ks, kv)
    ensures forall k :: k in SortStrings(ks) ==> k in kv
    ensures RenderFrom(ks, kv) == Header() + Body(SortStrings(ks), kv)
  {
    hide Header, SortStrings, Body, IsOrder;
    SortedMembers(ks, kv);
  }

  /** Rendering does not depend on the iteration order of the map. */
  lemma RenderOrderFree(ks: seq<string>, js: seq<string>, kv: Settings)
    requires IsOrder(ks, kv) && IsOrder(js, kv)
    ensures RenderFrom(ks, kv) == RenderFrom(js, kv)
  {
    hide SortStrings, Sorted, Header, Body;
    SortSorts(ks);
    SortSorts(js);
    SortedUnique(SortStrings(ks), SortStrings(js));
  }

  /** Settings whose `=` signs all come from the rendering. */
  predicate Separable(kv: Settings) {
    forall k :: k in kv ==> '=' !in k && '\n' !in k && '=' !in kv[k]
  }

  /** Equal drop-ins come from equal settings. */
  lemma RenderInjective(kv: Settings, kv': Settings)
    requires Separable(kv) && Separable(kv')
    ensures Rendered(kv) == Rendered(kv') <==> kv == kv'
  {
    hide SortStrings, Body, Header, Separable, Sorted, RenderFrom, SomeOrder, IsOrder;
    if Rendered(kv) == Rendered(kv') {
      var ks, ks' := SomeOrder(kv), SomeOrder(kv');
      RenderFromIs(ks, kv);
      RenderFromIs(ks', kv');
      var a, b := SortStrings(ks), SortStrings(ks');
      HeaderCancels(Body(a, kv), Body(b, kv'));
      SameBodies(a, kv, b, kv');
      SortedKeys(ks, kv);
      SortedKeys(ks', kv');
      SameKeys(a, kv, b, kv');
    }
  }

  lemma SortedKeys(ks: seq<string>, kv: Settings)
    requires IsOrder(ks, kv)
    ensures multiset(SortStrings(ks)) == multiset(kv.Keys)
  {
    SortSorts(ks);
  }

  lemma HeaderCancels(x: string, y: string)
    requires Header() + x == Header() + y
    ensures x == y
  {
    hide Header;
    assert x == (Header() + x)[|Header()|..] && y == (Header() + y)[|Header()|..];
  }

  /** A name ends before the blank in front of the first `=`. */
  lemma SameName(k: string, x: string, q: string, y: string)
    requires '=' !in k && '=' !in q && k + " = " + x == q + " = " + y
    ensures k == q && x == y
  {
    var s, t := k + " = " + x, q + " = " + y;
    assert s[|k| + 1] == '=' && t[|q| + 1] == '=';
    assert forall i :: 0 <= i <= |k| ==> s[i] != '=';
    assert forall i :: 0 <= i <= |q| ==> t[i] != '=';
    assert k == s[..|k|] && q == t[..|q|] && x == s[|k| + 3..] && y == t[|q| + 3..];
  }

  /** No newline stands among the characters up to `n`, and then there is `=`. */
  predicate NameUpTo(x: string, n: int) {
    0 <= n < |x| - 1 && '\n' !in x[..n + 1] && x[n + 1] == '='
  }

  /** What may follow a value: nothing, or a setting whose name has no newline. */
  ghost predicate StartsSetting(x: string) {
    x == "" || exists n :: NameUpTo(x, n)
  }

  /** A value ends at the last newline before the next `=`. */
  lemma SameValue(v: string, x: string, w: string, y: string)
    requires '=' !in v && '=' !in w && v + "\n" + x == w + "\n" + y
    requires StartsSetting(x) && StartsSetting(y)
    ensures v == w && x == y
  {
    var s, t := v + "\n" + x, w + "\n" + y;
    NotLonger(v, x, w, y);
    NotLonger(w, y, v, x);
    assert v == s[..|v|] && w == t[..|w|] && x == s[|v| + 1..] && y == t[|w| + 1..];
  }

  lemma NotLonger(v: string, x: string, w: string, y: string)
    requires '=' !in w && v + "\n" + x == w + "\n" + y && StartsSetting(x)
    ensures |w| <= |v|
  {
    var s := v + "\n" + x;
    assert |s| == |w| + 1 + |y| && s[|w|] == '\n';
    assert forall i :: 0 <= i < |w| ==> s[i] == w[i];
    if x != "" {
      var n :| NameUpTo(x, n);
      assert forall i :: 0 <= i <= n ==> x[..n + 1][i] == x[i];
      assert s[|v| + 1 + (n + 1)] == '=';
      assert forall i :: 0 <= i <= n ==> s[|v| + 1 + i] == x[i];
    }
  }

  lemma BodyStarts(ks: seq<string>, kv: Settings)
    requires Separable(kv) && forall k :: k in ks ==> k in kv
    ensures StartsSetting(Body(ks, kv))
  {
    if ks != [] {
      var k, x := ks[0], Body(ks, kv);
      assert k in ks && k in kv;
      assert x[..|k| + 1] == k + " " && x[|k| + 1] == '=';
      assert NameUpTo(x, |k|);
    }
  }

  lemma BodyHead(ks: seq<string>, kv: Settings)
    requires ks != [] && forall k :: k in ks ==> k in kv
    ensures ks[0] in ks && Body(ks, kv) == ks[0] + " = " + (kv[ks[0]] + "\n" + Body(ks[1..], kv))
  {
  }

  lemma {:induction false} SameBodies(a: seq<string>, kv: Settings, b: seq<string>, kv': Settings)
    requires forall k :: k in a ==> k in kv
    requires forall k :: k in b ==> k in kv'
    requires Separable(kv) && Separable(kv')
    requires Body(a, kv) == Body(b, kv')
    ensures |a| == |b| && forall i :: 0 <= i < |a| ==> a[i] == b[i] && kv[a[i]] == kv'[b[i]]
  {
    if a != [] && b != [] {
      var k, q := a[0], b[0];
      assert k in a && q in b;
      var x, y := Body(a[1..], kv), Body(b[1..], kv');
      BodyHead(a, kv);
      BodyHead(b, kv');
      hide Body;
      SameName(k, kv[k] + "\n" + x, q, kv'[q] + "\n" + y);
      BodyStarts(a[1..], kv);
      BodyStarts(b[1..], kv');
      SameValue(kv[k], x, kv'[q], y);
      SameBodies(a[1..], kv, b[1..], kv');
    }
  }

  lemma SameKeys(a: seq<string>, kv: Settings, b: seq<string>, kv': Settings)
    requires multiset(a) == multiset(kv.Keys) && multiset(b) == multiset(kv'.Keys)
    requires forall k :: k in a ==> k in kv
    requires a == b && forall i :: 0 <= i < |a| ==> a[i] in kv' && kv[a[i]] == kv'[a[i]]
    ensures kv == kv'
  {
    forall k: string
      ensures k in kv <==> k in kv'
      ensures k in kv ==> k in kv' && kv[k] == kv'[k]
    {
      assert k in kv <==> k in multiset(kv.Keys);
      assert k in kv' <==> k in multiset(kv'.Keys);
      if k in multiset(a) {
        var i :| 0 <= i < |a| && a[i] == k;
      }
    }
  }

  /** Names of the allowlist contain lower-case letters and underscores only. */
  predicate NameChar(c: char) {
    'a' <= c <= 'z' || c == '_'
  }

  predicate PlainName(s: string) {
    forall c :: c in s ==> NameChar(c)
  }

  lemma NameIsPlain(s: string)
    requires forall i :: 0 <= i < |s| ==> NameChar(s[i])
    ensures PlainName(s)
  {
  }

  lemma {:induction false} LookedUp(params: seq<Param>, engine: string, name: string)
    requires Lookup(params, engine, name).Some?
    ensures exists i :: 0 <= i < |params| && params[i].name == name
  {
    if !(params[0].engine == engine && params[0].name == name) {
      LookedUp(params[1..], engine, name);
      var i :| 0 <= i < |params[1..]| && params[1..][i].name == name;
      assert params[i + 1].name == name;
    }
  }

  lemma NamesArePlain()
    ensures PlainName("max_connections")
    ensures PlainName("innodb_buffer_pool_size")
    ensures PlainName("innodb_log_file_size")
    ensures PlainName("max_allowed_packet")
  {
    hide PlainName;
    NameIsPlain("max_connections");
    NameIsPlain("innodb_buffer_pool_size");
    NameIsPlain("innodb_log_file_size");
    NameIsPlain("max_allowed_packet");
  }

  lemma MoreNamesArePlain()
    ensures PlainName("table_open_cache")
    ensures PlainName("tmp_table_size")
    ensures PlainName("slow_query_log")
    ensures PlainName("long_query_time")
  {
    hide PlainName;
    NameIsPlain("table_open_cache");
    NameIsPlain("tmp_table_size");
    NameIsPlain("slow_query_log");
    NameIsPlain("long_query_time");
  }

  lemma LastNamesArePlain()
    ensures PlainName("shared_buffers")
    ensures PlainName("work_mem")
    ensures PlainName("maintenance_work_mem")
    ensures PlainName("effective_cache_size")
    ensures PlainName("wal_buffers")
    ensures PlainName("random_page_cost")
  {
    hide PlainName;
    NameIsPlain("shared_buffers");
    NameIsPlain("work_mem");
    NameIsPlain("maintenance_work_mem");
    NameIsPlain("effective_cache_size");
    NameIsPlain("wal_buffers");
    NameIsPlain("random_page_cost");
  }

  lemma RegistryNames(i: nat)
    requires i < |Registry()|
    ensures PlainName(Registry()[i].name)
  {
    NamesArePlain();
    MoreNamesArePlain();
    LastNamesArePlain();
    hide PlainName;
  }
}
