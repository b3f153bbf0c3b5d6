/** Two pieces of backup_create.go: the slots that keep one backup per user and
    repository running, and the tar header `restic dump` may put on a file. */
module BackupJobs {
  import opened Text

  datatype Job = Job(kind: string, user: string, repo: string, id: string)

  function SlotKey(j: Job): string {
    j.kind + ":" + j.user + ":" + j.repo
  }

  class JobSlots {
    var open: map<string, string>

    /** `acquire`. */
    method Acquire(j: Job) returns (existing: string, ok: bool)
      modifies this
      ensures ok <==> SlotKey(j) !in old(open)
      ensures ok ==> open == old(open)[SlotKey(j) := j.id] && existing == ""
      ensures !ok ==> open == old(open) && existing == open[SlotKey(j)]
    {
      var key := SlotKey(j);
      if key in open {
        return open[key], false;
      }
      open := open[key := j.id];
      return "", true;
    }

    /** `release`. */
    method Release(j: Job)
      modifies this
      ensures open == old(open) - {SlotKey(j)}
    {
      open := open - {SlotKey(j)};
    }
  }

  /** The slots, and the jobs that run, each under the number of its request. */
  datatype State = State(open: map<string, string>, running: map<nat, Job>)

  /** A request to start a job, or the end of a running one. */
  datatype Event = Start(call: nat, job: Job) | End(call: nat)

  function Step(s: State, e: Event): State {
    match e
    case Start(call, job) =>
      if call in s.running || SlotKey(job) in s.open then s
      else State(s.open[SlotKey(job) := job.id], s.running[call := job])
    case End(call) =>
      if call in s.running then State(s.open - {SlotKey(s.running[call])}, s.running - {call}) else s
  }

  function Run(s: State, events: seq<Event>): State {
    if events == [] then s else Step(Run(s, events[..|events| - 1]), events[|events| - 1])
  }

  /** Running jobs hold different slots, and the open slots are theirs. */
  ghost predicate Exclusive(s: State) {
    && (forall c, d :: c in s.running && d in s.running && c != d ==> SlotKey(s.running[c]) != SlotKey(s.running[d]))
    && (forall c :: c in s.running ==>
          SlotKey(s.running[c]) in s.open && s.open[SlotKey(s.running[c])] == s.running[c].id)
    && (forall k :: k in s.open ==> exists c :: c in s.running && SlotKey(s.running[c]) == k)
  }

  lemma StepExclusive(s: State, e: Event)
    requires Exclusive(s)
    ensures Exclusive(Step(s, e))
  {
    match e
    case Start(call, job) => StartExclusive(s, call, job);
    case End(call) => EndExclusive(s, call);
  }

  lemma StartExclusive(s: State, call: nat, job: Job)
    requires Exclusive(s)
    ensures Exclusive(Step(s, Start(call, job)))
  {
    hide SlotKey;
    var t := Step(s, Start(call, job));
    forall k | k in t.open
      ensures exists c :: c in t.running && SlotKey(t.running[c]) == k
    {
      if k in s.open {
        var c :| c in s.running && SlotKey(s.running[c]) == k;
        assert c in t.running && t.running[c] == s.running[c];
      } else {
        assert SlotKey(t.running[call]) == k;
      }
    }
  }

  lemma EndExclusive(s: State, call: nat)
    requires Exclusive(s)
    ensures Exclusive(Step(s, End(call)))
  {
    var t := Step(s, End(call));
    hide SlotKey;
    forall k | k in t.open
      ensures exists c :: c in t.running && SlotKey(t.running[c]) == k
    {
      var c :| c in s.running && SlotKey(s.running[c]) == k;
      assert c in t.running && t.running[c] == s.running[c];
    }
  }

  /** After any interleaving of starts and ends. */
  lemma {:induction false} AlwaysExclusive(events: seq<Event>)
    ensures Exclusive(Run(State(map[], map[]), events))
  {
    if events != [] {
      AlwaysExclusive(events[..|events| - 1]);
      StepExclusive(Run(State(map[], map[]), events[..|events| - 1]), events[|events| - 1]);
    }
  }

  lemma {:induction false} SlotsOfRequests(events: seq<Event>)
    ensures var s := Run(State(map[], map[]), events);
      forall c :: c in s.running ==> Start(c, s.running[c]) in events
  {
    if events != [] {
      var before := events[..|events| - 1];
      SlotsOfRequests(before);
      assert events == before + [events[|events| - 1]];
      hide SlotKey, Run;
      assert Run(State(map[], map[]), events) == Step(Run(State(map[], map[]), before), events[|events| - 1]) by {
        RunOne(events);
      }
    }
  }

  lemma RunOne(events: seq<Event>)
    requires events != []
    ensures Run(State(map[], map[]), events) ==
      Step(Run(State(map[], map[]), events[..|events| - 1]), events[|events| - 1])
  {
  }

  predicate NoColon(j: Job) {
    ':' !in j.kind && ':' !in j.user
  }

  /** A request is refused exactly when a job of the same kind, user and
      repository runs, and the id it is told is that job's. */
  lemma RefusedWhileRunning(events: seq<Event>, call: nat, job: Job)
    requires call !in Run(State(map[], map[]), events).running
    requires NoColon(job) && forall e :: e in events && e.Start? ==> NoColon(e.job)
    ensures var s := Run(State(map[], map[]), events);
      call !in Step(s, Start(call, job)).running <==>
        exists c :: c in s.running && SameSlot(s.running[c], job)
    ensures var s := Run(State(map[], map[]), events);
      forall c :: c in s.running && SameSlot(s.running[c], job) ==>
        SlotKey(job) in s.open && s.open[SlotKey(job)] == s.running[c].id
  {
    var s := Run(State(map[], map[]), events);
    AlwaysExclusive(events);
    SlotsOfRequests(events);
    forall c | c in s.running
      ensures SlotKey(s.running[c]) == SlotKey(job) <==> SameSlot(s.running[c], job)
    {
      assert Start(c, s.running[c]).job == s.running[c];
      if SlotKey(s.running[c]) == SlotKey(job) {
        SlotsDiffer(s.running[c], job);
      }
    }
    hide SlotKey, Run;
  }

  predicate SameSlot(i: Job, j: Job) {
    i.kind == j.kind && i.user == j.user && i.repo == j.repo
  }

  /** Kinds and users hold no colon, so different triples have different slots. */
  lemma SlotsDiffer(i: Job, j: Job)
    requires ':' !in i.kind && ':' !in j.kind && ':' !in i.user && ':' !in j.user
    requires SlotKey(i) == SlotKey(j)
    ensures i.kind == j.kind && i.user == j.user && i.repo == j.repo
  {
    var x, y := i.user + ":" + i.repo, j.user + ":" + j.repo;
    assert SlotKey(i) == i.kind + [':'] + x && SlotKey(j) == j.kind + [':'] + y;
    CutAtColon(i.kind, x, j.kind, y);
    assert x == i.user + [':'] + i.repo && y == j.user + [':'] + j.repo;
    CutAtColon(i.user, i.repo, j.user, j.repo);
  }

  lemma CutAtColon(a: string, b: string, c: string, d: string)
    requires ':' !in a && ':' !in c && a + [':'] + b == c + [':'] + d
    ensures a == c && b == d
  {
    var s := a + [':'] + b;
    assert s[|a|] == ':' && s[|c|] == ':';
    assert forall k :: 0 <= k < |a| ==> s[k] == a[k];
    assert forall k :: 0 <= k < |c| ==> s[k] == c[k];
    assert a == s[..|a|] && c == s[..|c|];
    assert b == s[|a| + 1..] && d == s[|c| + 1..];
  }

  // stripTar

  const MAGIC: seq<Byte> := [117, 115, 116, 97, 114]

  function TrimLeft(s: seq<Byte>, cut: Byte -> bool): seq<Byte> {
    if s != [] && cut(s[0]) then TrimLeft(s[1..], cut) else s
  }

  function TrimRight(s: seq<Byte>, cut: Byte -> bool): seq<Byte> {
    if s != [] && cut(s[|s| - 1]) then TrimRight(s[..|s| - 1], cut) else s
  }

  function IsNul(): Byte -> bool {
    (b: Byte) => b == 0
  }

  /** ASCII white space. */
  function IsBlank(): Byte -> bool {
    (b: Byte) => b == 32 || 9 <= b <= 13
  }

  function SizeField(b: seq<Byte>): seq<Byte>
    requires |b| >= 136
  {
    var field := TrimRight(TrimLeft(b[124..136], IsNul()), IsNul());
    TrimRight(TrimLeft(field, IsBlank()), IsBlank())
  }

  predicate IsOctal(b: Byte) {
    48 <= b <= 55
  }

  /** The number its leading octal digits spell, after the digits of `n`. */
  function OctalFrom(n: nat, s: seq<Byte>): nat
    decreases |s|
  {
    if s == [] || !IsOctal(s[0]) then n else OctalFrom(n * 8 + (s[0] - 48), s[1..])
  }

  predicate HasMagic(b: seq<Byte>) {
    |b| > 512 && b[257..262] == MAGIC
  }

  /** The file behind the header, or everything when there is no header or its
      size is 0 or runs past the end. */
  function Stripped(b: seq<Byte>): seq<Byte> {
    if HasMagic(b) && 0 < OctalFrom(0, SizeField(b)) <= |b| - 512
    then b[512..512 + OctalFrom(0, SizeField(b))]
    else b
  }

  /** `stripTar`. */
  method StripTar(b: seq<Byte>) returns (r: seq<Byte>)
    ensures r == Stripped(b)
  {
    if |b| <= 512 || !(MAGIC <= b[257..]) {
      assert |b| > 512 ==> b[257..262] == b[257..][..5];
      return b;
    }
    assert b[257..262] == b[257..][..5];
    var field := SizeField(b);
    var size: nat := 0;
    var i := 0;
    assert field[0..] == field;
    while i < |field| && IsOctal(field[i])
      invariant 0 <= i <= |field|
      invariant OctalFrom(size, field[i..]) == OctalFrom(0, field)
    {
      assert field[i..][0] == field[i] && field[i..][1..] == field[i + 1..];
      size := size * 8 + (field[i] - 48);
      i := i + 1;
    }
    assert i < |field| ==> field[i..][0] == field[i];
    if size <= 0 || 512 + size > |b| {
      return b;
    }
    r := b[512..512 + size];
  }

  /** A size is read digit by digit, up to the first other character. */
  lemma OctalDigits(n: nat, c: Byte, rest: seq<Byte>)
    ensures OctalFrom(n, []) == n
    ensures OctalFrom(n, [c] + rest) == if 48 <= c <= 55 then OctalFrom(n * 8 + (c - 48), rest) else n
  {
    assert ([c] + rest)[1..] == rest;
  }

  /** White space in ASCII. */
  predicate AllBlank(s: seq<Byte>) {
    forall i :: 0 <= i < |s| ==> s[i] in [9, 10, 11, 12, 13, 32]
  }

  predicate AllNul(s: seq<Byte>) {
    forall i :: 0 <= i < |s| ==> s[i] == 0
  }

  lemma {:induction false} TrimLeftAll(a: seq<Byte>, x: seq<Byte>, cut: Byte -> bool)
    requires (forall i :: 0 <= i < |a| ==> cut(a[i])) && (x == [] || !cut(x[0]))
    ensures TrimLeft(a + x, cut) == x
  {
    if a == [] {
      assert a + x == x;
    } else {
      assert (a + x)[0] == a[0] && (a + x)[1..] == a[1..] + x;
      TrimLeftAll(a[1..], x, cut);
    }
  }

  lemma {:induction false} TrimRightAll(x: seq<Byte>, b: seq<Byte>, cut: Byte -> bool)
    requires (forall i :: 0 <= i < |b| ==> cut(b[i])) && (x == [] || !cut(x[|x| - 1]))
    ensures TrimRight(x + b, cut) == x
    decreases |b|
  {
    if b == [] {
      assert x + b == x;
    } else {
      var n := |b| - 1;
      assert (x + b)[|x + b| - 1] == b[n] && (x + b)[..|x + b| - 1] == x + b[..n];
      TrimRightAll(x, b[..n], cut);
    }
  }

  /** The size stands between blanks, and these between NULs. */
  lemma SizeBetween(b: seq<Byte>, nuls: seq<Byte>, lead: seq<Byte>, size: seq<Byte>, trail: seq<Byte>, end: seq<Byte>)
    requires |b| >= 136 && b[124..136] == nuls + (lead + size + trail) + end
    requires AllNul(nuls) && AllNul(end) && AllBlank(lead) && AllBlank(trail)
    requires size != [] && IsOctal(size[0]) && IsOctal(size[|size| - 1])
    ensures SizeField(b) == size
  {
    hide TrimLeft, TrimRight, OctalFrom;
    var field := lead + size + trail;
    assert field[0] == if lead == [] then size[0] else lead[0];
    assert field[|field| - 1] == if trail == [] then size[|size| - 1] else trail[|trail| - 1];
    assert nuls + field + end == nuls + (field + end) && (field + end)[0] == field[0];
    TrimLeftAll(nuls, field + end, IsNul());
    TrimRightAll(field, end, IsNul());
    assert field == lead + (size + trail) && (size + trail)[0] == size[0];
    TrimLeftAll(lead, size + trail, IsBlank());
    TrimRightAll(size, trail, IsBlank());
  }

  /** `n` in octal, `width` digits. */
  function Octal(n: nat, width: nat): seq<Byte> {
    if width == 0 then [] else Octal(n / 8, width - 1) + [48 + n % 8]
  }

  function Pow8(n: nat): nat {
    if n == 0 then 1 else 8 * Pow8(n - 1)
  }

  lemma {:induction false} OctalReads(n: nat, width: nat, rest: seq<Byte>)
    requires n < Pow8(width)
    ensures OctalFrom(0, Octal(n, width) + rest) == OctalFrom(n, rest)
    ensures |Octal(n, width)| == width && forall i :: 0 <= i < width ==> IsOctal(Octal(n, width)[i])
  {
    if width == 0 {
      assert Octal(n, width) + rest == rest;
    } else {
      var d: Byte := 48 + n % 8;
      OctalReads(n / 8, width - 1, [d] + rest);
      assert Octal(n, width) + rest == Octal(n / 8, width - 1) + ([d] + rest);
      assert ([d] + rest)[1..] == rest;
    }
  }

  /** Sizes below it take eleven octal digits. */
  function SizeLimit(): nat {
    Pow8(11)
  }

  function Digits(n: nat): seq<Byte> {
    Octal(n, 11)
  }

  lemma DigitsRead(n: nat)
    requires n < SizeLimit()
    ensures |Digits(n)| == 11 && OctalFrom(0, Digits(n)) == n && forall i :: 0 <= i < 11 ==> IsOctal(Digits(n)[i])
  {
    OctalReads(n, 11, []);
    hide Octal;
    assert Octal(n, 11) + [] == Octal(n, 11);
  }

  /** A file behind a header that gives its size as eleven octal digits and a
      NUL comes out whole, whatever follows it, exactly when it is not empty. */
  lemma TarRoundTrip(header: seq<Byte>, data: seq<Byte>, padding: seq<Byte>)
    requires |header| == 512 && header[257..262] == MAGIC && |data| < SizeLimit()
    requires header[124..136] == Digits(|data|) + [0]
    ensures Stripped(header + data + padding) == data <==> data != []
  {
    hide SizeLimit, Digits, OctalFrom;
    DigitsRead(|data|);
    HeaderStays(header, data, padding);
    SizeOf(header + data + padding, Digits(|data|));
  }

  lemma HeaderStays(header: seq<Byte>, data: seq<Byte>, padding: seq<Byte>)
    requires |header| == 512
    ensures var b := header + data + padding;
      b[257..262] == header[257..262] && b[124..136] == header[124..136] && b[512..512 + |data|] == data
  {
  }

  lemma SizeOf(b: seq<Byte>, digits: seq<Byte>)
    requires |b| >= 136 && b[124..136] == digits + [0] && |digits| == 11
    requires forall i :: 0 <= i < 11 ==> IsOctal(digits[i])
    ensures SizeField(b) == digits
  {
    assert (digits + [0])[..11] == digits && IsOctal(digits[0]) && IsOctal(digits[10]);
    assert TrimLeft(digits + [0], IsNul()) == digits + [0];
    assert TrimRight(digits, IsNul()) == digits;
    assert TrimLeft(digits, IsBlank()) == digits && TrimRight(digits, IsBlank()) == digits;
  }

  /** Without the five letters behind the name of the file, or with a size that
      runs past the end, everything is kept. */
  lemma KeepsTheRest(b: seq<Byte>, size: nat)
    ensures |b| <= 512 || b[257..262] != [117, 115, 116, 97, 114] ==> Stripped(b) == b
    ensures |b| > 512 && b[124..136] == Digits(size) + [0] && size < SizeLimit() && 512 + size > |b| ==>
      Stripped(b) == b
  {
    if |b| > 512 && b[124..136] == Digits(size) + [0] && size < SizeLimit() {
      hide SizeLimit, Digits, OctalFrom;
      DigitsRead(size);
      SizeOf(b, Digits(size));
    }
  }

  /** A header that gives size 0 is taken for no header: everything is kept. */
  lemma EmptyFileKeepsHeader(b: seq<Byte>)
    requires |b| >= 512 && b[257..262] == MAGIC && b[124..136] == Digits(0) + [0]
    ensures Stripped(b) == b
  {
    assert 0 < SizeLimit();
    hide SizeLimit, Digits, OctalFrom;
    DigitsRead(0);
    SizeOf(b, Digits(0));
  }
}
