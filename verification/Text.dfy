/** String helpers shared by the models.  A `string` is a sequence of Unicode
    characters, of bytes where a model says so; every helper mirrors one function
    of Go's `strings`. */
module Text {
  datatype Option<+T> = None | Some(value: T)

  datatype Result<+T, +E> = Ok(value: T) | Err(error: E)

  type Byte = x: int | 0 <= x < 256

  /** `strings.Contains`. */
  predicate Contains(s: string, sub: string) {
    exists i :: 0 <= i <= |s| - |sub| && s[i..][..|sub|] == sub
  }

  /** The lower-case form of an ASCII letter; other characters stay. */
  function LowerChar(c: char): char {
    if 'A' <= c <= 'Z' then c - 'A' + 'a' else c
  }

  /** `fmt.Sprintf("%d", n)`. */
  function Decimal(n: nat): (s: string)
    ensures s != "" && forall c :: c in s ==> '0' <= c <= '9'
  {
    if n < 10 then [('0' as int + n) as char] else Decimal(n / 10) + [('0' as int + n % 10) as char]
  }

  /** `strings.Split` with a one-character separator. */
  function Split(s: string, sep: char): (parts: seq<string>)
    ensures parts != []
    ensures forall p :: p in parts ==> sep !in p
  {
    if s == "" then [""]
    else
      var rest := Split(s[1..], sep);
      if s[0] == sep then [""] + rest else [[s[0]] + rest[0]] + rest[1..]
  }

  /** `strings.Join` with a one-character separator. */
  function Join(parts: seq<string>, sep: char): string {
    if parts == [] then ""
    else if |parts| == 1 then parts[0]
    else parts[0] + [sep] + Join(parts[1..], sep)
  }

  lemma {:induction false} SplitAppend(a: string, b: string, sep: char)
    ensures Split(a + [sep] + b, sep) == Split(a, sep) + Split(b, sep)
  {
    if a == "" {
      assert (a + [sep] + b)[1..] == b;
    } else {
      assert (a + [sep] + b)[1..] == a[1..] + [sep] + b;
      SplitAppend(a[1..], b, sep);
    }
  }

  lemma {:induction false} SplitFree(s: string, sep: char)
    requires sep !in s
    ensures Split(s, sep) == [s]
  {
    if s != "" {
      SplitFree(s[1..], sep);
      assert [s[0]] + s[1..] == s;
    }
  }

  /** Splitting undoes joining when no part holds the separator. */
  lemma {:induction false} SplitJoin(parts: seq<string>, sep: char)
    requires parts != []
    requires forall p :: p in parts ==> sep !in p
    ensures Split(Join(parts, sep), sep) == parts
  {
    SplitFree(parts[0], sep);
    if |parts| > 1 {
      SplitJoin(parts[1..], sep);
      SplitAppend(parts[0], Join(parts[1..], sep), sep);
    }
  }

  lemma {:induction false} JoinAppend(a: seq<string>, b: seq<string>, sep: char)
    requires a != [] && b != []
    ensures Join(a + b, sep) == Join(a, sep) + [sep] + Join(b, sep)
  {
    assert (a + b)[0] == a[0];
    assert (a + b)[1..] == a[1..] + b;
    if |a| > 1 {
      JoinAppend(a[1..], b, sep);
    }
  }

  /** Joining undoes splitting. */
  lemma {:induction false} JoinSplit(s: string, sep: char)
    ensures Join(Split(s, sep), sep) == s
  {
    if s != "" {
      JoinSplit(s[1..], sep);
      var rest := Split(s[1..], sep);
      if s[0] == sep {
        assert ([""] + rest)[1..] == rest;
      } else {
        var parts := [[s[0]] + rest[0]] + rest[1..];
        assert parts[1..] == rest[1..];
      }
    }
  }

  /** `unicode.IsSpace`. */
  predicate IsSpace(c: char) {
    || '\t' <= c <= '\r' || c == ' '
    || c == '\U{85}' || c == '\U{A0}' || c == '\U{1680}'
    || '\U{2000}' <= c <= '\U{200A}'
    || c == '\U{2028}' || c == '\U{2029}' || c == '\U{202F}' || c == '\U{205F}' || c == '\U{3000}'
  }

  /** `strings.TrimRight` with `unicode.IsSpace`. */
  function TrimRightSpace(s: string): (r: string)
    ensures r <= s
    ensures r == "" || !IsSpace(r[|r| - 1])
    ensures forall i :: |r| <= i < |s| ==> IsSpace(s[i])
  {
    if s != "" && IsSpace(s[|s| - 1]) then TrimRightSpace(s[..|s| - 1]) else s
  }

  function TrimLeftSpace(s: string): string {
    if s != "" && IsSpace(s[0]) then TrimLeftSpace(s[1..]) else s
  }

  /** `strings.TrimSpace`. */
  function TrimSpace(s: string): string {
    TrimRightSpace(TrimLeftSpace(s))
  }

  predicate AllSpaces(s: string) {
    forall c :: c in s ==> IsSpace(c)
  }

  /** Nothing to trim. */
  predicate Trimmed(s: string) {
    s == "" || (!IsSpace(s[0]) && !IsSpace(s[|s| - 1]))
  }

  lemma {:induction false} TrimLeftParts(s: string) returns (a: string)
    ensures s == a + TrimLeftSpace(s) && AllSpaces(a)
    ensures TrimLeftSpace(s) == "" || !IsSpace(TrimLeftSpace(s)[0])
  {
    if s != "" && IsSpace(s[0]) {
      a := TrimLeftParts(s[1..]);
      a := [s[0]] + a;
    } else {
      a := "";
    }
  }

  /** Trimming takes blanks off both ends, and nothing else. */
  lemma TrimParts(s: string) returns (a: string, b: string)
    ensures s == a + TrimSpace(s) + b && AllSpaces(a) && AllSpaces(b) && Trimmed(TrimSpace(s))
  {
    hide IsSpace, TrimLeftSpace, TrimRightSpace;
    a := TrimLeftParts(s);
    var x := TrimLeftSpace(s);
    b := x[|TrimRightSpace(x)|..];
    assert x == TrimRightSpace(x) + b;
    assert forall c :: c in b ==> IsSpace(c);
    FirstKept(x);
  }

  lemma FirstKept(x: string)
    requires x == "" || !IsSpace(x[0])
    ensures Trimmed(TrimRightSpace(x))
  {
    hide IsSpace;
  }

  lemma {:induction false} TrimLeftBlank(a: string, x: string)
    requires AllSpaces(a) && (x == "" || !IsSpace(x[0]))
    ensures TrimLeftSpace(a + x) == x
  {
    if a == "" {
      assert a + x == x;
    } else {
      assert a[0] in a && (a + x)[1..] == a[1..] + x;
      TrimLeftBlank(a[1..], x);
    }
  }

  lemma {:induction false} TrimRightBlank(x: string, b: string)
    requires AllSpaces(b) && (x == "" || !IsSpace(x[|x| - 1]))
    ensures TrimRightSpace(x + b) == x
    decreases |b|
  {
    if b == "" {
      assert x + b == x;
    } else {
      var n := |b| - 1;
      assert b[n] in b && (x + b)[..|x + b| - 1] == x + b[..n];
      TrimRightBlank(x, b[..n]);
    }
  }

  lemma TrimBlank(a: string, x: string, b: string)
    requires AllSpaces(a) && AllSpaces(b) && Trimmed(x)
    ensures TrimSpace(a + x + b) == x
  {
    hide AllSpaces;
    if x == "" {
      BlankIsTrimmed(a + b, a, b);
      assert a + x + b == a + b;
    } else {
      assert a + x + b == a + (x + b) && (x + b)[0] == x[0];
      TrimLeftBlank(a, x + b);
      TrimRightBlank(x, b);
    }
  }

  lemma BlankIsTrimmed(s: string, a: string, b: string)
    requires AllSpaces(a) && AllSpaces(b) && s == a + b
    ensures TrimSpace(s) == ""
  {
    TrimLeftBlank(s, "");
    assert s + "" == s;
  }

  /** `strings.Fields`. */
  function Fields(s: string): (fields: seq<string>)
    ensures forall f :: f in fields ==> f != ""
  {
    FieldsFrom(s, "")
  }

  function FieldsFrom(s: string, word: string): (fields: seq<string>)
    ensures forall f :: f in fields ==> f != ""
  {
    if s == "" then (if word == "" then [] else [word])
    else if IsSpace(s[0]) then (if word == "" then [] else [word]) + FieldsFrom(s[1..], "")
    else FieldsFrom(s[1..], word + [s[0]])
  }

  /** A word: some characters, none of them white space. */
  predicate IsWord(s: string) {
    s != "" && forall i :: 0 <= i < |s| ==> !IsSpace(s[i])
  }

  lemma {:induction false} FieldsSkip(gap: string, rest: string)
    requires AllSpaces(gap)
    ensures Fields(gap + rest) == Fields(rest)
  {
    if gap == "" {
      assert gap + rest == rest;
    } else {
      assert gap[0] in gap && (gap + rest)[0] == gap[0] && (gap + rest)[1..] == gap[1..] + rest;
      FieldsSkip(gap[1..], rest);
    }
  }

  lemma {:induction false} FieldsFromWord(word: string, w: string, rest: string)
    requires IsWord(word + w) && (rest == "" || IsSpace(rest[0]))
    ensures FieldsFrom(w + rest, word) == [word + w] + Fields(rest)
    decreases |w|
  {
    if w == "" {
      assert w + rest == rest && word + w == word;
      assert rest != "" ==> FieldsFrom(rest, "") == [] + FieldsFrom(rest[1..], "");
    } else {
      assert (w + rest)[0] == w[0] == (word + w)[|word|] && (w + rest)[1..] == w[1..] + rest;
      assert word + [w[0]] + w[1..] == word + w;
      FieldsFromWord(word + [w[0]], w[1..], rest);
    }
  }

  /** The first word of a text, then those of the rest. */
  lemma FieldsWord(gap: string, w: string, rest: string)
    requires AllSpaces(gap) && IsWord(w) && (rest == "" || IsSpace(rest[0]))
    ensures Fields(gap + w + rest) == [w] + Fields(rest)
  {
    assert gap + w + rest == gap + (w + rest) && "" + w == w;
    FieldsSkip(gap, w + rest);
    FieldsFromWord("", w, rest);
  }

  /** Every text is blank or starts, after blanks, with a word. */
  lemma {:induction false} FirstWord(s: string) returns (gap: string, w: string, rest: string)
    ensures s == gap + w + rest && AllSpaces(gap) && (rest == "" || IsSpace(rest[0]))
    ensures w == "" ==> rest == "" && Fields(s) == []
    ensures w != "" ==> IsWord(w) && Fields(s) == [w] + Fields(rest)
  {
    var i := 0;
    while i < |s| && IsSpace(s[i])
      invariant 0 <= i <= |s| && AllSpaces(s[..i])
    {
      assert s[..i + 1] == s[..i] + [s[i]];
      i := i + 1;
    }
    var j := i;
    while j < |s| && !IsSpace(s[j])
      invariant i <= j <= |s| && forall k :: i <= k < j ==> !IsSpace(s[k])
    {
      j := j + 1;
    }
    gap, w, rest := s[..i], s[i..j], s[j..];
    assert s == gap + w + rest;
    hide Fields;
    if w == "" {
      assert s == gap + "" && rest == "";
      FieldsSkip(gap, "");
      NoFields();
    } else {
      FieldsWord(gap, w, rest);
    }
  }

  lemma NoFields()
    ensures Fields("") == []
  {
  }

  /** `strings.ReplaceAll` of a single character. */
  function ReplaceChar(s: string, c: char, replacement: string): string {
    if s == "" then "" else (if s[0] == c then replacement else [s[0]]) + ReplaceChar(s[1..], c, replacement)
  }
}
