/** Credential env files: the writer of backup_dest_creds.go and the loader of
    internal/backup/copy.go.  Strings are sequences of Unicode characters here. */
module EnvFile {
  import opened Text

  datatype WriteError = BadDestination | EmptyEnv | BadKey | NewlineInValue | WriteFailed

  datatype LoadError = MissingEquals | LineTooLong | ReadFailed

  /** `isValidULID`. */
  predicate IsULID(s: string) {
    |s| == 26 && forall c :: c in s ==> '0' <= c <= '9' || 'A' <= c <= 'Z'
  }

  /** `validCredsKey`. */
  predicate ValidKey(k: string) {
    && k != ""
    && forall i :: 0 <= i < |k| ==> 'A' <= k[i] <= 'Z' || k[i] == '_' || (i > 0 && '0' <= k[i] <= '9')
  }

  predicate ValidValue(v: string) {
    '\n' !in v && '\r' !in v
  }

  predicate Acceptable(env: map<string, string>) {
    && |env| != 0
    && forall k :: k in env ==> ValidKey(k) && ValidValue(env[k])
  }

  /** `ks` lists every key of `env` once: an iteration order. */
  ghost predicate IsOrder(ks: seq<string>, env: map<string, string>) {
    && (forall k :: k in ks <==> k in env)
    && forall i, j :: 0 <= i < j < |ks| ==> ks[i] != ks[j]
  }

  lemma CapitalsAndDigits(c: char)
    ensures c in "0123456789" <==> '0' <= c <= '9'
    ensures c in "ABCDEFGHIJKLMNOPQRSTUVWXYZ" <==> 'A' <= c <= 'Z'
  {
  }

  /** Destinations have 26 characters, capitals and digits. */
  lemma IDsExactly(s: string)
    ensures IsULID(s) <==>
      |s| == 26 && forall i :: 0 <= i < 26 ==> s[i] in "ABCDEFGHIJKLMNOPQRSTUVWXYZ" || s[i] in "0123456789"
  {
    forall c: char
      ensures c in "0123456789" <==> '0' <= c <= '9'
      ensures c in "ABCDEFGHIJKLMNOPQRSTUVWXYZ" <==> 'A' <= c <= 'Z'
    {
      CapitalsAndDigits(c);
    }
    assert forall i :: 0 <= i < |s| ==> s[i] in s;
  }

  /** Keys are made of capitals, underscores and, behind the first character,
      digits. */
  lemma KeysExactly(k: string)
    ensures ValidKey(k) <==>
      && k != "" && k[0] !in "0123456789"
      && forall i :: 0 <= i < |k| ==> k[i] in "ABCDEFGHIJKLMNOPQRSTUVWXYZ" || k[i] in "0123456789" || k[i] == '_'
  {
    forall c: char
      ensures c in "0123456789" <==> '0' <= c <= '9'
      ensures c in "ABCDEFGHIJKLMNOPQRSTUVWXYZ" <==> 'A' <= c <= 'Z'
    {
      CapitalsAndDigits(c);
    }
  }

  function Line(k: string, v: string): string {
    k + "=" + v
  }

  /** The file the writer produces in iteration order `ks`. */
  function FileText(ks: seq<string>, env: map<string, string>): string
    requires forall k :: k in ks ==> k in env
  {
    if ks == [] then "" else Line(ks[0], env[ks[0]]) + "\n" + FileText(ks[1..], env)
  }

  class CredsDir {
    var files: map<string, string>

    constructor ()
      ensures files == map[]
    {
      files := map[];
    }

    /** `backupDestCredsWriteHandler`: a rejected or failed write leaves every
        file as it was.  Unless it `works`, some file operation fails. */
    method WriteCreds(destID: string, env: map<string, string>, works: bool) returns (r: Result<string, WriteError>)
      modifies this
      ensures r.Ok? <==> works && IsULID(destID) && Acceptable(env)
      ensures r.Ok? ==>
        && r.value == destID + ".env"
        && exists ks :: IsOrder(ks, env) && files == old(files)[r.value := FileText(ks, env)]
      ensures r.Err? ==> files == old(files)
      ensures r == Err(BadDestination) <==> !IsULID(destID)
      ensures r == Err(EmptyEnv) <==> IsULID(destID) && env == map[]
      ensures r == Err(BadKey) ==> exists k :: k in env && !ValidKey(k)
      ensures r == Err(NewlineInValue) ==> exists k :: k in env && !ValidValue(env[k])
      ensures r == Err(WriteFailed) <==> !works && IsULID(destID) && Acceptable(env)
    {
      if !IsULID(destID) {
        return Err(BadDestination);
      }
      if |env| == 0 {
        return Err(EmptyEnv);
      }
      var left := env.Keys;
      while left != {}
        invariant left <= env.Keys
        invariant forall k :: k in env.Keys - left ==> ValidKey(k) && ValidValue(env[k])
        invariant files == old(files)
        decreases left
      {
        var k :| k in left;
        if !ValidKey(k) {
          return Err(BadKey);
        }
        if '\n' in env[k] || '\r' in env[k] {
          return Err(NewlineInValue);
        }
        left := left - {k};
      }
      var text := "";
      ghost var ks: seq<string> := [];
      left := env.Keys;
      while left != {}
        invariant left <= env.Keys
        invariant forall k :: k in ks <==> k in env.Keys - left
        invariant forall i, j :: 0 <= i < j < |ks| ==> ks[i] != ks[j]
        invariant text == FileText(ks, env)
        invariant files == old(files)
        decreases left
      {
        var k :| k in left;
        var writes: bool := *;
        if !writes && !works {
          return Err(WriteFailed);
        }
        text := text + k + "=" + env[k] + "\n";
        FileTextAppend(ks, k, env);
        assert k !in ks;
        ks := ks + [k];
        left := left - {k};
      }
      if !works {
        return Err(WriteFailed);
      }
      assert IsOrder(ks, env);
      files := files[destID + ".env" := text];
      return Ok(destID + ".env");
    }
  }

  lemma {:induction false} FileTextAppend(ks: seq<string>, k: string, env: map<string, string>)
    requires k in env && forall q :: q in ks ==> q in env
    ensures FileText(ks + [k], env) == FileText(ks, env) + k + "=" + env[k] + "\n"
  {
    if ks == [] {
      assert FileText([k][1..], env) == "";
    } else {
      hide Line;
      assert (ks + [k])[0] == ks[0] && (ks + [k])[1..] == ks[1..] + [k];
      FileTextAppend(ks[1..], k, env);
      var first, rest := Line(ks[0], env[ks[0]]) + "\n", FileText(ks[1..], env);
      assert first + (rest + k + "=" + env[k] + "\n") == first + rest + k + "=" + env[k] + "\n";
    }
  }

  /** Size of a character in UTF-8. */
  function Utf8Size(c: char): nat {
    if c < '\U{80}' then 1 else if c < '\U{800}' then 2 else if c < '\U{10000}' then 3 else 4
  }

  /** The bounds of the four sizes. */
  lemma Utf8Bounds()
    ensures Utf8Size('\U{0}') == Utf8Size('\U{7F}') == 1 && Utf8Size('\U{80}') == Utf8Size('\U{7FF}') == 2
    ensures Utf8Size('\U{800}') == Utf8Size('\U{FFFF}') == 3 && Utf8Size('\U{10000}') == Utf8Size('\U{10FFFF}') == 4
    ensures forall c, d :: c <= d ==> Utf8Size(c) <= Utf8Size(d)
  {
  }

  function ByteLength(s: string): nat {
    if s == "" then 0 else Utf8Size(s[0]) + ByteLength(s[1..])
  }

  /** `bufio.MaxScanTokenSize`. */
  const MAX_TOKEN := 65536

  /** The lines `bufio.ScanLines` sees, before it drops a trailing CR. */
  function RawLines(text: string): seq<string> {
    var parts := Split(text, '\n');
    if parts[|parts| - 1] == "" then parts[..|parts| - 1] else parts
  }

  function DropCR(line: string): string {
    if line != "" && line[|line| - 1] == '\r' then line[..|line| - 1] else line
  }

  function LoadLines(lines: seq<string>): Result<seq<string>, LoadError> {
    if lines == [] then Ok([])
    else if ByteLength(lines[0]) >= MAX_TOKEN then Err(LineTooLong)
    else
      var line := TrimSpace(DropCR(lines[0]));
      if line == "" || "#" <= line then LoadLines(lines[1..])
      else if '=' !in line then Err(MissingEquals)
      else
        match LoadLines(lines[1..])
        case Err(e) => Err(e)
        case Ok(rest) => Ok([line] + rest)
  }

  lemma TrimDropsCR(line: string)
    ensures TrimSpace(DropCR(line)) == TrimSpace(line)
  {
    hide TrimSpace;
    var a, b := TrimParts(line);
    var x := TrimSpace(line);
    if DropCR(line) != line {
      if b != "" {
        assert DropCR(line) == a + x + b[..|b| - 1];
        TrimBlank(a, x, b[..|b| - 1]);
      } else {
        assert line == a + x && x == "";
        BlankIsTrimmed(DropCR(line), DropCR(line), "");
      }
    }
  }

  lemma TrimmedOf(line: string)
    ensures TrimSpace(line) == "" <==> AllSpaces(line)
    ensures "#" <= TrimSpace(line) <==> exists n :: 0 <= n < |line| && AllSpaces(line[..n]) && line[n] == '#'
    ensures '=' in TrimSpace(line) <==> '=' in line
  {
    assert !IsSpace('=') && !IsSpace('#');
    hide TrimSpace, IsSpace;
    var a, b := TrimParts(line);
    var x := TrimSpace(line);
    if "#" <= x {
      assert line[..|a|] == a && line[|a|] == '#';
    }
    if n :| 0 <= n < |line| && AllSpaces(line[..n]) && line[n] == '#' {
      FirstAfterBlanks(a, x, b, n);
    }
  }

  lemma FirstAfterBlanks(a: string, x: string, b: string, n: nat)
    requires AllSpaces(a) && AllSpaces(b) && Trimmed(x) && n < |a + x + b|
    requires AllSpaces((a + x + b)[..n]) && !IsSpace((a + x + b)[n])
    ensures n == |a| && x != "" && x[0] == (a + x + b)[n]
  {
    hide IsSpace;
    var line := a + x + b;
    var c := line[n];
    assert n < |a| ==> c in a;
    forall i | 0 <= i < n
      ensures IsSpace(line[i])
    {
      assert line[..n][i] in line[..n];
    }
    assert x != "" ==> line[|a|] == x[0];
    assert c in a || c in x || c in b;
  }

  lemma {:induction false} LoadAppend(a: seq<string>, b: seq<string>)
    ensures LoadLines(a + b) ==
      match LoadLines(a)
      case Err(e) => Err(e)
      case Ok(first) => match LoadLines(b) { case Err(e) => Err(e) case Ok(rest) => Ok(first + rest) }
  {
    hide TrimSpace, DropCR, ByteLength;
    if a == [] {
      assert a + b == b;
      assert LoadLines(b).Ok? ==> [] + LoadLines(b).value == LoadLines(b).value;
    } else {
      assert (a + b)[1..] == a[1..] + b;
      LoadAppend(a[1..], b);
      if LoadLines(a[1..]).Ok? && LoadLines(b).Ok? {
        var line, first, rest := TrimSpace(DropCR(a[0])), LoadLines(a[1..]).value, LoadLines(b).value;
        assert [line] + first + rest == [line] + (first + rest);
      }
    }
  }

  /** A line of blanks, or one that starts with `#` after blanks. */
  ghost predicate Ignored(line: string) {
    AllSpaces(line) || exists n :: 0 <= n < |line| && AllSpaces(line[..n]) && line[n] == '#'
  }

  lemma LoadOne(line: string)
    ensures LoadLines([line]) ==
      if ByteLength(line) >= 65536 then Err(LineTooLong)
      else if Ignored(line) then Ok([])
      else if '=' !in line then Err(MissingEquals)
      else Ok([TrimSpace(line)])
  {
    TrimDropsCR(line);
    TrimmedOf(line);
    hide TrimSpace, DropCR, ByteLength, AllSpaces;
    assert [line][1..] == [] && LoadLines([]) == Ok([]);
    assert [TrimSpace(line)] + [] == [TrimSpace(line)];
  }

  /** The lines are read one after the other, and the first bad one ends it: blank
      lines and comments are left out, the others need an `=` and give an entry
      without white space around it. */
  lemma LoadsEach(before: seq<string>, line: string, rest: seq<string>)
    requires LoadLines(before).Ok?
    ensures var first, more := LoadLines(before).value, LoadLines(rest);
      LoadLines(before + [line] + rest) ==
        if ByteLength(line) >= 65536 then Err(LineTooLong)
        else if !Ignored(line) && '=' !in line then Err(MissingEquals)
        else if more.Err? then more
        else Ok(first + (if Ignored(line) then [] else [TrimSpace(line)]) + more.value)
  {
    LoadAppend(before, [line]);
    LoadAppend(before + [line], rest);
    LoadOne(line);
    hide LoadLines, TrimSpace, ByteLength, Ignored;
  }

  /** `LoadEnvFile`; `text` is `None` for a missing file, `readable` whether
      opening and reading went through. */
  method LoadEnvFile(text: Option<string>, readable: bool) returns (r: Result<seq<string>, LoadError>)
    ensures text == None ==> r == Ok([])
    ensures text.Some? && !readable ==> r == Err(ReadFailed)
    ensures text.Some? && readable ==> r == LoadLines(RawLines(text.value))
  {
    hide TrimSpace, DropCR, ByteLength, RawLines;
    if text == None {
      return Ok([]);
    }
    if !readable {
      return Err(ReadFailed);
    }
    var lines := RawLines(text.value);
    var out: seq<string> := [];
    ghost var all := LoadLines(lines);
    assert lines[0..] == lines && (all.Ok? ==> [] + all.value == all.value);
    for i := 0 to |lines|
      invariant LoadLines(lines) ==
        match LoadLines(lines[i..]) { case Err(e) => Err(e) case Ok(rest) => Ok(out + rest) }
    {
      assert lines[i..][1..] == lines[i + 1..];
      if ByteLength(lines[i]) >= MAX_TOKEN {
        return Err(LineTooLong);
      }
      var line := TrimSpace(DropCR(lines[i]));
      if line == "" || "#" <= line {
        continue;
      }
      if '=' !in line {
        return Err(MissingEquals);
      }
      ghost var rest := LoadLines(lines[i + 1..]);
      assert rest.Ok? ==> out + ([line] + rest.value) == out + [line] + rest.value;
      out := out + [line];
    }
    assert lines[|lines|..] == [] && out + [] == out;
    return Ok(out);
  }

  lemma {:induction false} TrimRightAfter(a: string, b: string)
    requires a != "" && !IsSpace(a[|a| - 1])
    ensures TrimRightSpace(a + b) == a + TrimRightSpace(b)
    decreases |b|
  {
    if b == "" {
      assert a + b == a;
    } else {
      assert (a + b)[|a + b| - 1] == b[|b| - 1];
      assert (a + b)[..|a + b| - 1] == a + b[..|b| - 1];
      TrimRightAfter(a, b[..|b| - 1]);
    }
  }

  lemma TrimmedLine(k: string, v: string)
    requires ValidKey(k) && ValidValue(v)
    ensures TrimSpace(DropCR(Line(k, v))) == Line(k, TrimRightSpace(v))
  {
    var line := Line(k, v);
    assert line[0] == k[0] && !IsSpace(k[0]);
    assert line[|line| - 1] == if v == "" then '=' else v[|v| - 1];
    assert DropCR(line) == line;
    assert TrimLeftSpace(line) == line;
    TrimRightAfter(k + "=", v);
    assert k + "=" + v == line;
  }

  function Lines(ks: seq<string>, env: map<string, string>): seq<string>
    requires forall k :: k in ks ==> k in env
  {
    seq(|ks|, i requires 0 <= i < |ks| => Line(ks[i], env[ks[i]]))
  }

  function Entries(ks: seq<string>, env: map<string, string>): seq<string>
    requires forall k :: k in ks ==> k in env
  {
    seq(|ks|, i requires 0 <= i < |ks| => Line(ks[i], TrimRightSpace(env[ks[i]])))
  }

  lemma {:induction false} WrittenLines(ks: seq<string>, env: map<string, string>)
    requires forall k :: k in ks ==> k in env && ValidKey(k) && ValidValue(env[k])
    ensures Split(FileText(ks, env), '\n') == Lines(ks, env) + [""]
  {
    if ks == [] {
      assert Lines(ks, env) + [""] == [""];
    } else {
      var line := Line(ks[0], env[ks[0]]);
      WrittenLines(ks[1..], env);
      assert '\n' !in line;
      SplitFree(line, '\n');
      SplitAppend(line, FileText(ks[1..], env), '\n');
      assert FileText(ks, env) == line + ['\n'] + FileText(ks[1..], env);
      assert Lines(ks, env) == [line] + Lines(ks[1..], env);
    }
  }

  lemma EntriesStep(ks: seq<string>, env: map<string, string>)
    requires ks != [] && forall k :: k in ks ==> k in env
    ensures Lines(ks, env) == [Line(ks[0], env[ks[0]])] + Lines(ks[1..], env)
    ensures Entries(ks, env) == [Line(ks[0], TrimRightSpace(env[ks[0]]))] + Entries(ks[1..], env)
    ensures Lines(ks, env)[1..] == Lines(ks[1..], env)
  {
  }

  /** Some written line exceeds what the scanner takes. */
  predicate TooLong(ks: seq<string>, env: map<string, string>)
    requires forall k :: k in ks ==> k in env
  {
    ks != [] && (ByteLength(Line(ks[0], env[ks[0]])) >= MAX_TOKEN || TooLong(ks[1..], env))
  }

  lemma LoadKeyLine(k: string, v: string, rest: seq<string>)
    requires ValidKey(k) && ValidValue(v)
    ensures LoadLines([Line(k, v)] + rest)
         == if ByteLength(Line(k, v)) >= MAX_TOKEN then Err(LineTooLong)
            else match LoadLines(rest) { case Err(e) => Err(e) case Ok(es) => Ok([Line(k, TrimRightSpace(v))] + es) }
  {
    TrimmedLine(k, v);
    var line, entry := Line(k, v), Line(k, TrimRightSpace(v));
    assert entry[0] == k[0] != '#' && entry[|k|] == '=';
    assert ([line] + rest)[1..] == rest;
    hide TrimSpace, DropCR, ByteLength, TrimRightSpace, Line;
  }

  lemma {:induction false} LoadWritten(ks: seq<string>, env: map<string, string>)
    requires forall k :: k in ks ==> k in env && ValidKey(k) && ValidValue(env[k])
    ensures LoadLines(Lines(ks, env)) == if TooLong(ks, env) then Err(LineTooLong) else Ok(Entries(ks, env))
  {
    hide TrimSpace, DropCR, ByteLength, TrimRightSpace, Line;
    if ks == [] {
      assert Lines(ks, env) == [] && Entries(ks, env) == [];
    } else {
      assert ks[0] in ks;
      hide Lines, Entries, LoadLines;
      EntriesStep(ks, env);
      LoadWritten(ks[1..], env);
      LoadKeyLine(ks[0], env[ks[0]], Lines(ks[1..], env));
    }
  }

  lemma {:induction false} TooLongMeaning(ks: seq<string>, env: map<string, string>)
    requires forall k :: k in ks ==> k in env
    ensures TooLong(ks, env) <==> exists k :: k in ks && ByteLength(Line(k, env[k])) >= MAX_TOKEN
  {
    if ks != [] {
      TooLongMeaning(ks[1..], env);
      assert forall k :: k in ks <==> k == ks[0] || k in ks[1..];
    }
  }

  /** Loading a written file: one entry per key in the written order, each value
      without its trailing whitespace, and an error exactly when some line
      exceeds the scanner's token size. */
  lemma LoadAfterWrite(ks: seq<string>, env: map<string, string>)
    requires Acceptable(env) && IsOrder(ks, env)
    ensures (exists k :: k in env && ByteLength(Line(k, env[k])) >= MAX_TOKEN) ==>
      LoadLines(RawLines(FileText(ks, env))) == Err(LineTooLong)
    ensures (forall k :: k in env ==> ByteLength(Line(k, env[k])) < MAX_TOKEN) ==>
      LoadLines(RawLines(FileText(ks, env))) == Ok(Entries(ks, env))
  {
    WrittenLines(ks, env);
    assert RawLines(FileText(ks, env)) == Lines(ks, env);
    LoadWritten(ks, env);
    TooLongMeaning(ks, env);
  }

  /** Whatever the order, the same entries come back, and a value survives
      exactly when it has no trailing whitespace. */
  lemma EntriesDetermined(ks: seq<string>, js: seq<string>, env: map<string, string>)
    requires Acceptable(env) && IsOrder(ks, env) && IsOrder(js, env)
    ensures forall e :: e in Entries(ks, env) <==> e in Entries(js, env)
    ensures forall k, w :: k in env && '=' !in k ==>
      (Line(k, w) in Entries(ks, env) <==> w == TrimRightSpace(env[k]))
    ensures forall k :: k in env ==>
      (TrimRightSpace(env[k]) == env[k] <==> env[k] == "" || !IsSpace(env[k][|env[k]| - 1]))
  {
    EntriesAre(ks, env);
    EntriesAre(js, env);
    forall k, w | k in env && '=' !in k
      ensures Line(k, w) in Entries(ks, env) <==> w == TrimRightSpace(env[k])
    {
      if Line(k, w) in Entries(ks, env) {
        var q :| q in env && Line(k, w) == Line(q, TrimRightSpace(env[q]));
        LineInjective(k, w, q, TrimRightSpace(env[q]));
      }
    }
  }

  lemma EntriesAre(ks: seq<string>, env: map<string, string>)
    requires IsOrder(ks, env)
    ensures forall e :: e in Entries(ks, env) <==> exists k :: k in env && e == Line(k, TrimRightSpace(env[k]))
  {
    forall k | k in env
      ensures Line(k, TrimRightSpace(env[k])) in Entries(ks, env)
    {
      var i :| 0 <= i < |ks| && ks[i] == k;
      assert Entries(ks, env)[i] == Line(k, TrimRightSpace(env[k]));
    }
  }

  lemma LineInjective(k: string, v: string, q: string, w: string)
    requires '=' !in k && ValidKey(q) && Line(k, v) == Line(q, w)
    ensures k == q && v == w
  {
    SplitFree(k, '=');
    assert '=' !in q;
    SplitFree(q, '=');
    SplitAppend(k, v, '=');
    SplitAppend(q, w, '=');
    assert k == Split(Line(k, v), '=')[0] == q;
    assert v == Line(k, v)[|k| + 1..] && w == Line(q, w)[|q| + 1..];
  }
}
