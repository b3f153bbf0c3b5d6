/** Standard base64 with padding (section 4 of RFC 4648), decoding as Go's
    `base64.StdEncoding` does: CR and LF are skipped, spare bits are ignored. */
module Base64 {
  import opened Text

  type Sextet = x: int | 0 <= x < 64

  function EncodeSextet(v: Sextet): char {
    if v < 26 then ('A' as int + v) as char
    else if v < 52 then ('a' as int + v - 26) as char
    else if v < 62 then ('0' as int + v - 52) as char
    else if v == 62 then '+' else '/'
  }

  function DecodeSextet(c: char): Option<Sextet> {
    if 'A' <= c <= 'Z' then Some(c as int - 'A' as int)
    else if 'a' <= c <= 'z' then Some(c as int - 'a' as int + 26)
    else if '0' <= c <= '9' then Some(c as int - '0' as int + 52)
    else if c == '+' then Some(62)
    else if c == '/' then Some(63)
    else None
  }

  function Encode(b: seq<Byte>): string {
    if b == [] then ""
    else if |b| == 1 then
      [EncodeSextet(b[0] / 4), EncodeSextet(b[0] % 4 * 16), '=', '=']
    else if |b| == 2 then
      [EncodeSextet(b[0] / 4), EncodeSextet(b[0] % 4 * 16 + b[1] / 16), EncodeSextet(b[1] % 16 * 4), '=']
    else
      [EncodeSextet(b[0] / 4), EncodeSextet(b[0] % 4 * 16 + b[1] / 16),
       EncodeSextet(b[1] % 16 * 4 + b[2] / 64), EncodeSextet(b[2] % 64)] + Encode(b[3..])
  }

  function SkipNewlines(s: string): string {
    if s == "" then ""
    else (if s[0] == '\r' || s[0] == '\n' then "" else [s[0]]) + SkipNewlines(s[1..])
  }

  /** Decodes groups of four characters. */
  function DecodeGroups(s: string): Option<seq<Byte>> {
    if s == "" then Some([])
    else if |s| < 4 then None
    else
      var x, y, z, w := DecodeSextet(s[0]), DecodeSextet(s[1]), DecodeSextet(s[2]), DecodeSextet(s[3]);
      if x == None || y == None then None
      else
        var b0 := x.value * 4 + y.value / 16;
        if s[2] == '=' then
          if s[3] == '=' && |s| == 4 then Some([b0]) else None
        else if z == None then None
        else
          var b1 := y.value % 16 * 16 + z.value / 4;
          if s[3] == '=' then
            if |s| == 4 then Some([b0, b1]) else None
          else if w == None then None
          else
            var b2 := z.value % 4 * 64 + w.value;
            match DecodeGroups(s[4..])
            case None => None
            case Some(rest) => Some([b0, b1, b2] + rest)
  }

  function Decode(s: string): Option<seq<Byte>> {
    DecodeGroups(SkipNewlines(s))
  }

  lemma SextetRoundTrip(v: Sextet)
    ensures DecodeSextet(EncodeSextet(v)) == Some(v)
    ensures EncodeSextet(v) != '=' && EncodeSextet(v) != '\n' && EncodeSextet(v) != '\r'
  {
  }

  lemma GroupArithmetic(b0: Byte, b1: Byte, b2: Byte)
    ensures b0 / 4 * 4 + (b0 % 4 * 16 + b1 / 16) / 16 == b0
    ensures (b0 % 4 * 16 + b1 / 16) % 16 * 16 + (b1 % 16 * 4 + b2 / 64) / 4 == b1
    ensures (b1 % 16 * 4 + b2 / 64) % 4 * 64 + b2 % 64 == b2
  {
  }

  lemma DecodeFour(x: Sextet, y: Sextet, z: Sextet, w: Sextet, rest: string)
    ensures DecodeGroups([EncodeSextet(x), EncodeSextet(y), EncodeSextet(z), EncodeSextet(w)] + rest) ==
      match DecodeGroups(rest)
      case None => None
      case Some(bytes) => Some([x * 4 + y / 16, y % 16 * 16 + z / 4, z % 4 * 64 + w] + bytes)
  {
    hide EncodeSextet, DecodeSextet;
    SextetRoundTrip(x);
    SextetRoundTrip(y);
    SextetRoundTrip(z);
    SextetRoundTrip(w);
    var s := [EncodeSextet(x), EncodeSextet(y), EncodeSextet(z), EncodeSextet(w)] + rest;
    assert s[4..] == rest;
  }

  lemma DecodeLast(x: Sextet, y: Sextet, z: Sextet)
    ensures DecodeGroups([EncodeSextet(x), EncodeSextet(y), '=', '=']) == Some([x * 4 + y / 16])
    ensures DecodeGroups([EncodeSextet(x), EncodeSextet(y), EncodeSextet(z), '=']) == Some([x * 4 + y / 16,
        y % 16 * 16 + z / 4])
  {
    hide EncodeSextet, DecodeSextet;
    SextetRoundTrip(x);
    SextetRoundTrip(y);
    SextetRoundTrip(z);
  }

  /** The sixty-four digits. */
  predicate IsDigit(c: char) {
    'A' <= c <= 'Z' || 'a' <= c <= 'z' || '0' <= c <= '9' || c == '+' || c == '/'
  }

  /** Groups of four digits, the last one ending in at most two `=`. */
  ghost predicate IsPadded(t: string, pad: nat) {
    && |t| % 4 == 0 && pad <= 2 && pad <= |t|
    && (forall i :: 0 <= i < |t| - pad ==> IsDigit(t[i]))
    && (forall i :: |t| - pad <= i < |t| ==> t[i] == '=')
  }

  lemma DigitsDecode(c: char)
    ensures DecodeSextet(c).Some? <==> IsDigit(c)
    ensures !IsDigit('=')
  {
  }

  /** What is decoded, and to how many bytes. */
  lemma {:induction false} GroupsExactly(t: string, pad: nat)
    ensures DecodeGroups(t).Some? ==> IsPadded(t, 0) || IsPadded(t, 1) || IsPadded(t, 2)
    ensures IsPadded(t, pad) ==> DecodeGroups(t).Some? && |DecodeGroups(t).value| == |t| / 4 * 3 - pad
    decreases |t|
  {
    if |t| >= 4 {
      DigitsDecode(t[0]);
      DigitsDecode(t[1]);
      DigitsDecode(t[2]);
      DigitsDecode(t[3]);
      hide IsDigit, DecodeSextet;
      if t[2] != '=' && t[3] != '=' {
        GroupsExactly(t[4..], pad);
        LaterGroups(t, 0);
        LaterGroups(t, 1);
        LaterGroups(t, 2);
        LaterGroups(t, pad);
      }
    }
  }

  lemma LaterGroups(t: string, pad: nat)
    requires |t| >= 4 && t[2] != '=' && t[3] != '='
    ensures IsPadded(t, pad) <==>
      IsPadded(t[4..], pad) && IsDigit(t[0]) && IsDigit(t[1]) && IsDigit(t[2]) && IsDigit(t[3])
  {
    hide IsDigit;
    assert forall i :: 4 <= i < |t| ==> t[4..][i - 4] == t[i];
    assert forall i :: 0 <= i < |t| - 4 ==> t[i + 4] == t[4..][i];
  }

  lemma {:induction false} SkipAcross(a: string, c: char, b: string)
    ensures SkipNewlines(a + [c] + b) ==
      SkipNewlines(a) + (if c == '\r' || c == '\n' then "" else [c]) + SkipNewlines(b)
  {
    if a == "" {
      assert (a + [c] + b)[1..] == b;
    } else {
      assert (a + [c] + b)[0] == a[0] && (a + [c] + b)[1..] == a[1..] + [c] + b;
      SkipAcross(a[1..], c, b);
    }
  }

  lemma {:induction false} GroupsRoundTrip(b: seq<Byte>)
    ensures DecodeGroups(Encode(b)) == Some(b)
  {
    hide EncodeSextet, DecodeSextet, DecodeGroups;
    if |b| == 0 {
      DecodeNothing();
    } else if |b| < 3 {
      LastGroup(b);
    } else {
      GroupArithmetic(b[0], b[1], b[2]);
      GroupsRoundTrip(b[3..]);
      DecodeFour(b[0] / 4, b[0] % 4 * 16 + b[1] / 16, b[1] % 16 * 4 + b[2] / 64, b[2] % 64, Encode(b[3..]));
      assert b == [b[0], b[1], b[2]] + b[3..];
    }
  }

  lemma LastGroup(b: seq<Byte>)
    requires 1 <= |b| <= 2
    ensures DecodeGroups(Encode(b)) == Some(b)
  {
    if |b| == 1 {
      assert b == [b[0]];
      hide DecodeGroups, Encode;
      LastOne(b[0]);
    } else {
      assert b == [b[0], b[1]];
      hide DecodeGroups, Encode;
      LastTwo(b[0], b[1]);
    }
  }

  lemma LastOne(x: Byte)
    ensures DecodeGroups(Encode([x])) == Some([x])
  {
    hide EncodeSextet, DecodeSextet, DecodeGroups;
    GroupArithmetic(x, 0, 0);
    DecodeLast(x / 4, x % 4 * 16, 0);
  }

  lemma LastTwo(x: Byte, y: Byte)
    ensures DecodeGroups(Encode([x, y])) == Some([x, y])
  {
    hide EncodeSextet, DecodeSextet, DecodeGroups;
    GroupArithmetic(x, y, 0);
    DecodeLast(x / 4, x % 4 * 16 + y / 16, y % 16 * 4);
  }

  lemma DecodeNothing()
    ensures DecodeGroups("") == Some([])
  {
  }

  lemma {:induction false} NoNewlines(b: seq<Byte>)
    ensures forall c :: c in Encode(b) ==> c != '\n' && c != '\r'
  {
    hide EncodeSextet;
    if |b| == 1 {
      SextetRoundTrip(b[0] / 4);
      SextetRoundTrip(b[0] % 4 * 16);
    } else if |b| == 2 {
      SextetRoundTrip(b[0] / 4);
      SextetRoundTrip(b[0] % 4 * 16 + b[1] / 16);
      SextetRoundTrip(b[1] % 16 * 4);
    } else if |b| >= 3 {
      SextetRoundTrip(b[0] / 4);
      SextetRoundTrip(b[0] % 4 * 16 + b[1] / 16);
      SextetRoundTrip(b[1] % 16 * 4 + b[2] / 64);
      SextetRoundTrip(b[2] % 64);
      NoNewlines(b[3..]);
    }
  }

  lemma {:induction false} SkipNothing(s: string)
    requires forall c :: c in s ==> c != '\n' && c != '\r'
    ensures SkipNewlines(s) == s
  {
    if s != "" {
      assert s[0] in s && forall c :: c in s[1..] ==> c in s;
      SkipNothing(s[1..]);
    }
  }

  /** Decoding undoes encoding, for every byte string. */
  lemma RoundTrip(b: seq<Byte>)
    ensures Decode(Encode(b)) == Some(b)
  {
    NoNewlines(b);
    SkipNothing(Encode(b));
    GroupsRoundTrip(b);
  }

  /** Test vectors of section 10 of RFC 4648. */
  lemma KnownAnswers()
    ensures Encode([102]) == "Zg==" && Encode([102, 111]) == "Zm8=" && Encode([102, 111, 111]) == "Zm9v"
    ensures Encode([102, 111, 111, 98, 97, 114]) == "Zm9vYmFy"
  {
    assert [102, 111, 111, 98, 97, 114][3..] == [98, 97, 114] && [98, 97, 114][3..] == [];
    assert [102, 111, 111][3..] == [];
    assert Encode([]) == "" && Encode([98, 97, 114]) == "YmFy";
  }

  /** The last two digits of the alphabet. */
  lemma LastDigits()
    ensures Encode([251, 239, 190]) == "++++" && Encode([255, 255, 255]) == "////"
  {
    assert [251, 239, 190][3..] == [] && [255, 255, 255][3..] == [];
    assert Encode([]) == "";
  }
}
