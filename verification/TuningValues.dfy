/** What validated tunables look like (internal/dbtuning): where a value may hold
    blanks and newlines, and what that means for the drop-in. */
module TuningValues {
  import opened Text
  import opened DbTuning

  /** No white space and no `=`. */
  predicate Solid(s: string) {
    forall c :: c in s ==> !IsSpace(c) && c != '='
  }

  lemma {:induction false} PrefixEnds(num: string, rest: string)
    requires forall c :: c in num ==> NumberChar(c)
    requires rest == "" || !NumberChar(rest[0])
    ensures NumberPrefix(num + rest) == |num|
  {
    if num == "" {
      assert num + rest == rest;
    } else {
      assert num[0] in num && (num + rest)[1..] == num[1..] + rest;
      PrefixEnds(num[1..], rest);
    }
  }

  /** A unit is made of letters. */
  lemma UnitIsSolid(unit: string)
    requires Unit(ToLower(unit)).Some?
    ensures forall c :: c in unit ==> !IsSpace(c) && !NumberChar(c) && c != '='
  {
    var low := ToLower(unit);
    assert |low| <= 2 && forall i :: 0 <= i < |low| ==> low[i] in "bkmgt";
    forall c | c in unit
      ensures !IsSpace(c) && !NumberChar(c) && c != '='
    {
      var i :| 0 <= i < |unit| && unit[i] == c;
      assert low[i] in "bkmgt";
    }
  }

  /** Blanks, a number, blanks, a unit, blanks. */
  datatype Shape = Shape(before: string, num: string, between: string, unit: string, after: string)

  predicate Fits(value: string, s: Shape) {
    && value == s.before + (s.num + s.between + s.unit) + s.after
    && AllSpaces(s.before) && AllSpaces(s.between) && AllSpaces(s.after)
    && s.num != "" && (forall c :: c in s.num ==> c == '.' || '0' <= c <= '9')
    && Unit(ToLower(s.unit)).Some?
  }

  lemma NumberIsSolid(num: string)
    requires forall c :: c in num ==> NumberChar(c)
    ensures Solid(num) && Trimmed(num)
  {
    assert num != "" ==> num[0] in num && num[|num| - 1] in num;
  }

  /** The value without the blanks around it. */
  function Core(s: Shape): string {
    if s.unit == "" then s.num else s.num + (s.between + s.unit)
  }

  function Rest(s: Shape): string {
    if s.unit == "" then "" else s.between + s.unit
  }

  lemma CoreOf(value: string, s: Shape)
    requires Fits(value, s)
    ensures TrimSpace(value) == Core(s) && Core(s) != ""
  {
    UnitIsSolid(s.unit);
    NumberIsSolid(s.num);
    var end := if s.unit == "" then s.between + s.after else s.after;
    BlankAppend(s.between, s.after);
    CoreTrimmed(s, Core(s));
    hide TrimSpace, Unit, ToLower, AllSpaces, NumberChar, Trimmed;
    ShapeText(s, end);
    TrimBlank(s.before, Core(s), end);
  }

  lemma ShapeText(s: Shape, end: string)
    requires end == if s.unit == "" then s.between + s.after else s.after
    ensures s.before + (s.num + s.between + s.unit) + s.after == s.before + Core(s) + end
  {
    if s.unit == "" {
      assert s.num + s.between + s.unit == s.num + s.between;
    } else {
      assert s.num + s.between + s.unit == Core(s);
    }
  }

  lemma CoreReads(s: Shape)
    requires AllSpaces(s.between) && s.num != "" && (forall c :: c in s.num ==> NumberChar(c))
    requires Unit(ToLower(s.unit)).Some?
    ensures var core, n := Core(s), |s.num|;
      && NumberPrefix(core) == n && core[..n] == s.num && TrimSpace(core[..n]) == s.num
      && TrimSpace(core[n..]) == s.unit
  {
    UnitIsSolid(s.unit);
    NumberIsSolid(s.num);
    var rest := Rest(s);
    RestStarts(s, rest);
    UnitTrimmed(s, rest);
    PrefixEnds(s.num, rest);
    TrimBlank("", s.num, "");
    hide TrimSpace, Unit, ToLower, AllSpaces, NumberPrefix, NumberChar;
    assert Core(s) == s.num + rest && "" + s.num + "" == s.num;
    assert Core(s)[..|s.num|] == s.num && Core(s)[|s.num|..] == rest;
  }

  /** Reading a value of that shape. */
  lemma ShapeReads(value: string, s: Shape, parse: ParseFloat)
    requires Fits(value, s)
    ensures Bytes(value, parse) ==
      match parse(s.num) case None => None case Some(x) => Some(Scale(x, Unit(ToLower(s.unit)).value))
  {
    CoreOf(value, s);
    CoreReads(s);
    hide TrimSpace, ToLower, Unit, NumberPrefix, AllSpaces, NumberChar, Core, Scale;
  }

  lemma CoreTrimmed(s: Shape, core: string)
    requires s.num != "" && Trimmed(s.num) && forall c :: c in s.unit ==> !IsSpace(c)
    requires core == if s.unit == "" then s.num else s.num + (s.between + s.unit)
    ensures Trimmed(core) && core != ""
  {
    if s.unit != "" {
      assert core[|core| - 1] == s.unit[|s.unit| - 1] && s.unit[|s.unit| - 1] in s.unit;
    }
  }

  lemma RestStarts(s: Shape, rest: string)
    requires AllSpaces(s.between) && (forall c :: c in s.unit ==> !NumberChar(c))
    requires rest == if s.unit == "" then "" else s.between + s.unit
    ensures rest == "" || !NumberChar(rest[0])
  {
    if s.unit != "" {
      if s.between == "" {
        assert rest == s.unit && s.unit[0] in s.unit;
      } else {
        assert rest[0] == s.between[0] && s.between[0] in s.between;
      }
    }
  }

  lemma UnitTrimmed(s: Shape, rest: string)
    requires AllSpaces(s.between) && (forall c :: c in s.unit ==> !IsSpace(c))
    requires rest == if s.unit == "" then "" else s.between + s.unit
    ensures TrimSpace(rest) == s.unit
  {
    assert s.unit != "" ==> s.unit[0] in s.unit && s.unit[|s.unit| - 1] in s.unit;
    if s.unit == "" {
      TrimBlank("", "", "");
    } else {
      TrimBlank(s.between, s.unit, "");
      assert s.between + s.unit + "" == rest;
    }
  }

  /** What `parseBytes` accepts: exactly the values of that shape whose number
      parses, and it reads the number times the unit. */
  lemma BytesAccepts(value: string, parse: ParseFloat) returns (s: Shape)
    ensures Bytes(value, parse).Some? ==> Fits(value, s) && parse(s.num).Some?
  {
    hide TrimSpace, ToLower, Unit, NumberPrefix, Trimmed, AllSpaces, Solid, IsSpace;
    var t := TrimSpace(value);
    var n := NumberPrefix(t);
    var num := t[..n];
    var a, b := TrimParts(value);
    var c, d := TrimParts(t[n..]);
    s := Shape(a, num, c, TrimSpace(t[n..]), d + b);
    NumberTrimmed(num);
    BlankAppend(d, b);
    Glued(value, a, t, b, num, t[n..], c, s.unit, d);
  }

  lemma NumberTrimmed(num: string)
    requires forall i :: 0 <= i < |num| ==> NumberChar(num[i])
    ensures TrimSpace(num) == num && forall c :: c in num ==> NumberChar(c)
  {
    NumberIsSolid(num);
    TrimBlank("", num, "");
    assert "" + num + "" == num;
  }

  lemma Glued(value: string, a: string, t: string, b: string, num: string, rest: string, c: string, unit: string,
              d: string)
    requires value == a + t + b && t == num + rest && rest == c + unit + d
    ensures value == a + (num + c + unit) + (d + b)
  {
  }

  lemma BlankAppend(a: string, b: string)
    requires AllSpaces(a) && AllSpaces(b)
    ensures AllSpaces(a + b)
  {
  }

  lemma BytesExactly(value: string, parse: ParseFloat)
    ensures Bytes(value, parse).Some? <==> exists s :: Fits(value, s) && parse(s.num).Some?
  {
    var s := BytesAccepts(value, parse);
    hide Fits, Bytes;
    if t :| Fits(value, t) && parse(t.num).Some? {
      ShapeReads(value, t, parse);
    }
  }

  /** `strconv.ParseFloat` takes no text with white space or `=`. */
  ghost predicate ParsesSolid(parse: ParseFloat) {
    forall s :: parse(s).Some? ==> Solid(s)
  }

  /** A validated value is blanks, solid text, blanks, solid text, blanks: white
      space, newlines included, can stand there and nowhere else, and no `=`. */
  lemma ValidParts(engine: string, name: string, value: string, parse: ParseFloat) returns (s: Shape)
    requires ParsesSolid(parse) && Valid(engine, name, value, parse) && (engine == "mariadb" || engine == "postgres")
    ensures value == s.before + (s.num + s.between + s.unit) + s.after
    ensures AllSpaces(s.before) && AllSpaces(s.between) && AllSpaces(s.after) && Solid(s.num) && Solid(s.unit)
  {
    hide Registry, TrimSpace, Bytes, AllSpaces, Solid;
    var p := Lookup(Registry(), engine, name).value;
    var a, b := TrimParts(value);
    var v := TrimSpace(value);
    Nothing();
    match p.kind {
      case KindBytes =>
        s := BytesAccepts(v, parse);
        PartsOf(v, s);
        BlankAppend(a, s.before);
        BlankAppend(s.after, b);
        assert value == (a + s.before) + (s.num + s.between + s.unit) + (s.after + b);
        s := Shape(a + s.before, s.num, s.between, s.unit, s.after + b);
      case KindBool =>
        Switches();
        s := Shape(a, v, "", "", b);
        assert v == v + "" + "";
      case _ =>
        s := Shape(a, v, "", "", b);
        assert v == v + "" + "";
    }
  }

  lemma Nothing()
    ensures AllSpaces("") && Solid("")
  {
  }

  lemma Switches()
    ensures Solid("0") && Solid("1") && Solid("on") && Solid("off")
  {
  }

  lemma PartsOf(value: string, s: Shape)
    requires Fits(value, s)
    ensures value == s.before + (s.num + s.between + s.unit) + s.after
    ensures AllSpaces(s.before) && AllSpaces(s.between) && AllSpaces(s.after) && Solid(s.num) && Solid(s.unit)
  {
    NumberIsSolid(s.num);
    UnitIsSolid(s.unit);
    hide Unit, ToLower;
  }

  lemma NoEquals(s: Shape)
    requires AllSpaces(s.before) && AllSpaces(s.between) && AllSpaces(s.after) && Solid(s.num) && Solid(s.unit)
    ensures '=' !in s.before + (s.num + s.between + s.unit) + s.after
  {
    assert !IsSpace('=');
  }

  /** Validated settings can be read back from their drop-in, newlines or not. */
  lemma ValidIsSeparable(engine: string, kv: Settings, parse: ParseFloat)
    requires ParsesSolid(parse) && AllValid(engine, kv, parse) && (engine == "mariadb" || engine == "postgres")
    ensures Separable(kv)
  {
    hide Registry, AllSpaces, Solid;
    forall k | k in kv
      ensures '=' !in k && '\n' !in k && '=' !in kv[k]
    {
      assert Valid(engine, k, kv[k], parse);
      LookedUp(Registry(), engine, k);
      var i :| 0 <= i < |Registry()| && Registry()[i].name == k;
      RegistryNames(i);
      var s := ValidParts(engine, k, kv[k], parse);
      NoEquals(s);
    }
  }

  /** Equal drop-ins of validated settings come from equal settings. */
  lemma ValidatedInjective(kv: Settings, kv': Settings, parse: ParseFloat)
    requires ParsesSolid(parse) && AllValid("mariadb", kv, parse) && AllValid("mariadb", kv', parse)
    ensures Rendered(kv) == Rendered(kv') <==> kv == kv'
  {
    hide AllValid, Rendered, Separable;
    ValidIsSeparable("mariadb", kv, parse);
    ValidIsSeparable("mariadb", kv', parse);
    RenderInjective(kv, kv');
  }

  /** Any blanks, newlines included, may be put around and between number and
      unit of a byte size: they change nothing about its validation. */
  lemma BlanksValidate(engine: string, name: string, value: string, s: Shape, parse: ParseFloat)
    requires Fits(value, s)
    requires Lookup(Registry(), engine, name).Some? && Lookup(Registry(), engine, name).value.kind == KindBytes
    ensures Valid(engine, name, value, parse) <==> Valid(engine, name, s.num + s.unit, parse)
  {
    hide Registry, TrimSpace, Unit, ToLower, AllSpaces, Bytes;
    var plain := Shape("", s.num, "", s.unit, "");
    assert s.num + s.unit == "" + (s.num + "" + s.unit) + "";
    Nothing();
    TrimmedFits(value, s);
    TrimmedFits(s.num + s.unit, plain);
    ShapeReads(TrimSpace(value), Inner(s), parse);
    ShapeReads(TrimSpace(s.num + s.unit), Inner(plain), parse);
  }

  /** The shape without what trimming takes off. */
  function Inner(s: Shape): Shape {
    Shape("", s.num, if s.unit == "" then "" else s.between, s.unit, "")
  }

  lemma TrimmedFits(value: string, s: Shape)
    requires Fits(value, s)
    ensures Fits(TrimSpace(value), Inner(s)) && TrimSpace(value) != ""
  {
    CoreOf(value, s);
    Nothing();
    hide TrimSpace, Unit, ToLower, AllSpaces, NumberChar;
    assert "" + (s.num + Inner(s).between + s.unit) + "" == Core(s);
  }
}
