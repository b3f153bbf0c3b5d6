/** `dechunk` of install/adminer/jabali-sso-plugin.php against the chunked
    coding of section 7.1 of RFC 9112.  Strings are byte strings. */
module Chunked {
  /** The value of a hexadecimal digit, -1 for any other character. */
  function HexDigit(c: char): int {
    if '0' <= c <= '9' then c as int - '0' as int
    else if 'a' <= c <= 'f' then c as int - 'a' as int + 10
    else if 'A' <= c <= 'F' then c as int - 'A' as int + 10
    else -1
  }

  /** PHP's `hexdec`: characters that are no digits are skipped. */
  function HexDec(s: string): nat {
    if s == "" then 0
    else
      var d := HexDigit(s[|s| - 1]);
      if d < 0 then HexDec(s[..|s| - 1]) else 16 * HexDec(s[..|s| - 1]) + d
  }

  predicate CrlfAt(s: string, i: nat) {
    i + 1 < |s| && s[i] == '\r' && s[i + 1] == '\n'
  }

  /** `strpos` for CRLF from offset `i`; -1 when there is none. */
  function FindCrlf(s: string, i: nat): (at: int)
    ensures at == -1 || i <= at < |s|
    decreases |s| - i
  {
    if i + 1 >= |s| then -1 else if CrlfAt(s, i) then i else FindCrlf(s, i + 1)
  }

  lemma {:induction false} FirstCrlf(s: string, i: nat, at: nat)
    requires i <= at && CrlfAt(s, at) && forall j :: i <= j < at ==> !CrlfAt(s, j)
    ensures FindCrlf(s, i) == at
    decreases |s| - i
  {
    if i < at {
      FirstCrlf(s, i + 1, at);
    }
  }

  /** PHP's `substr` for a non-negative offset and length. */
  function Substr(s: string, offset: nat, length: nat): string {
    if offset >= |s| then "" else if offset + length >= |s| then s[offset..] else s[offset..offset + length]
  }

  function DecodeFrom(body: string, i: nat): string
    decreases |body| - i
  {
    if i >= |body| then ""
    else
      var crlf := FindCrlf(body, i);
      if crlf == -1 then ""
      else
        var size := HexDec(Substr(body, i, crlf - i));
        if size == 0 then "" else Substr(body, crlf + 2, size) + DecodeFrom(body, crlf + 2 + size + 2)
  }

  /** The loop terminates on every byte string. */
  method Dechunk(body: string) returns (out: string)
    ensures out == DecodeFrom(body, 0)
  {
    hide FindCrlf, HexDec, Substr;
    out := "";
    var i := 0;
    while i < |body|
      invariant out + DecodeFrom(body, i) == DecodeFrom(body, 0)
    {
      var crlf := FindCrlf(body, i);
      if crlf == -1 {
        break;
      }
      var size := HexDec(Substr(body, i, crlf - i));
      i := crlf + 2;
      if size == 0 {
        break;
      }
      assert out + (Substr(body, i, size) + DecodeFrom(body, i + size + 2))
          == out + Substr(body, i, size) + DecodeFrom(body, i + size + 2);
      out := out + Substr(body, i, size);
      i := i + size + 2;
    }
  }

  /** A chunk as sent: the text of its size line and its data. */
  datatype Chunk = Chunk(sizeLine: string, data: string)

  ghost predicate NoCrlf(s: string) {
    forall j :: 0 <= j ==> !CrlfAt(s, j)
  }

  /** The receiver reads the size of the chunk as intended. */
  ghost predicate Readable(c: Chunk) {
    NoCrlf(c.sizeLine) && c.data != "" && HexDec(c.sizeLine) == |c.data|
  }

  function Send(chunks: seq<Chunk>, end: string): string {
    if chunks == [] then end
    else Framed(chunks[0]) + Send(chunks[1..], end)
  }

  function Framed(c: Chunk): string {
    c.sizeLine + "\r\n" + c.data + "\r\n"
  }

  function Payload(chunks: seq<Chunk>): string {
    if chunks == [] then "" else chunks[0].data + Payload(chunks[1..])
  }

  /** A last-chunk line of value zero, then any trailer section. */
  ghost predicate IsEnd(end: string, zeroLine: string) {
    NoCrlf(zeroLine) && HexDec(zeroLine) == 0 && zeroLine + "\r\n" <= end
  }

  /** A line free of CRLF is found up to the CRLF that ends it. */
  lemma LineEnd(s: string, i: nat, n: nat)
    requires CrlfAt(s, i + n) && NoCrlf(s[i..i + n])
    ensures FindCrlf(s, i) == i + n && Substr(s, i, n) == s[i..i + n]
  {
    forall j | i <= j < i + n
      ensures !CrlfAt(s, j)
    {
      assert !CrlfAt(s[i..i + n], j - i);
    }
    FirstCrlf(s, i, i + n);
  }

  lemma SubstrInside(s: string, i: nat, n: nat)
    requires i + n <= |s|
    ensures Substr(s, i, n) == s[i..i + n]
  {
  }

  /** One chunk is decoded at a time. */
  lemma DecodeChunk(s: string, i: nat, n: nat, m: nat)
    requires CrlfAt(s, i + n) && NoCrlf(s[i..i + n]) && HexDec(s[i..i + n]) == m
    requires i + n + 2 + m <= |s|
    ensures DecodeFrom(s, i)
         == if m == 0 then "" else s[i + n + 2..i + n + 2 + m] + DecodeFrom(s, i + n + 2 + m + 2)
  {
    hide FindCrlf, HexDec, CrlfAt, NoCrlf, Substr;
    LineEnd(s, i, n);
    SubstrInside(s, i + n + 2, m);
    assert i + n < |s|;
  }

  /** What comes of any body: nothing once no line ends. */
  lemma NothingDecoded(s: string, i: nat)
    requires forall j :: i <= j ==> !CrlfAt(s, j)
    ensures DecodeFrom(s, i) == ""
  {
    NoLineEnd(s, i);
    hide FindCrlf, CrlfAt;
  }

  /** Nothing once a size reads as 0, else the data, as much as there is of it, and
      what follows two bytes later. */
  lemma DecodesAny(s: string, i: nat, at: nat)
    requires i <= at && CrlfAt(s, at) && forall j :: i <= j < at ==> !CrlfAt(s, j)
    ensures var m, data := HexDec(s[i..at]), at + 2;
      DecodeFrom(s, i) ==
        if m == 0 then ""
        else if data + m <= |s| then s[data..data + m] + DecodeFrom(s, data + m + 2)
        else s[data..]
  {
    FirstCrlf(s, i, at);
    hide *;
    CutShort(s, i, at);
  }

  lemma CutShort(s: string, i: nat, at: nat)
    requires i <= at && at + 2 <= |s| && FindCrlf(s, i) == at
    ensures var m, data := HexDec(s[i..at]), at + 2;
      DecodeFrom(s, i) ==
        if m == 0 then ""
        else if data + m <= |s| then s[data..data + m] + DecodeFrom(s, data + m + 2)
        else s[data..]
  {
    hide *;
    var m, data := HexDec(s[i..at]), at + 2;
    SubstrInside(s, i, at - i);
    DecodeStep(s, i, at);
    if data + m <= |s| {
      SubstrInside(s, data, m);
    } else {
      SubstrPast(s, data, m);
      DecodePast(s, data + m + 2);
      Nothing(s[data..]);
    }
  }

  lemma DecodeStep(s: string, i: nat, at: nat)
    requires i < |s| && FindCrlf(s, i) == at && i <= at
    ensures var m := HexDec(Substr(s, i, at - i));
      DecodeFrom(s, i) == if m == 0 then "" else Substr(s, at + 2, m) + DecodeFrom(s, at + 2 + m + 2)
  {
    hide HexDec, FindCrlf, Substr;
  }

  lemma Nothing(s: string)
    ensures s + "" == s
  {
  }

  lemma DecodePast(s: string, i: nat)
    requires i >= |s|
    ensures DecodeFrom(s, i) == ""
  {
  }

  lemma SubstrPast(s: string, i: nat, n: nat)
    requires i <= |s| < i + n
    ensures Substr(s, i, n) == s[i..]
  {
  }

  lemma {:induction false} NoLineEnd(s: string, i: nat)
    requires forall j :: i <= j ==> !CrlfAt(s, j)
    ensures FindCrlf(s, i) == -1
    decreases |s| - i
  {
    if i + 1 < |s| {
      NoLineEnd(s, i + 1);
    }
  }

  /** A size is read digit by digit, in either case; other characters are skipped. */
  lemma SizeReads(s: string, c: char)
    ensures HexDec("") == 0
    ensures HexDec(s + [c]) ==
      if '0' <= c <= '9' then 16 * HexDec(s) + (c as int - 48)
      else if 'a' <= c <= 'f' then 16 * HexDec(s) + (c as int - 97) + 10
      else if 'A' <= c <= 'F' then 16 * HexDec(s) + (c as int - 65) + 10
      else HexDec(s)
  {
    assert (s + [c])[..|s + [c]| - 1] == s;
  }

  lemma ChunkAt(before: string, c: Chunk, tail: string)
    ensures var body, i, n, m := before + (Framed(c) + tail), |before|, |c.sizeLine|, |c.data|;
      && |Framed(c)| == n + m + 4 && CrlfAt(body, i + n)
      && body[i..i + n] == c.sizeLine && body[i + n + 2..i + n + 2 + m] == c.data
  {
    var body, i, n, m := before + (Framed(c) + tail), |before|, |c.sizeLine|, |c.data|;
    assert body[i..] == Framed(c) + tail;
    assert Framed(c)[..n] == c.sizeLine && Framed(c)[n + 2..n + 2 + m] == c.data;
    assert body[i..i + n] == body[i..][..n];
    assert body[i + n] == Framed(c)[n] && body[i + n + 1] == Framed(c)[n + 1];
    assert body[i + n + 2..i + n + 2 + m] == body[i..][n + 2..n + 2 + m];
  }

  lemma DecodeEnd(before: string, end: string, zeroLine: string)
    requires IsEnd(end, zeroLine)
    ensures DecodeFrom(before + end, |before|) == ""
  {
    hide FindCrlf, HexDec, NoCrlf, DecodeFrom;
    var body, i := before + end, |before|;
    assert body[i..] == end;
    assert body[i..i + |zeroLine|] == zeroLine;
    assert CrlfAt(body, i + |zeroLine|);
    DecodeChunk(body, i, |zeroLine|, 0);
  }

  /** For every list of chunks whose size lines read as their data lengths, the
      decoder returns the concatenated data, whatever bytes the data holds and
      whatever follows the last chunk. */
  lemma {:induction false} DecodeSent(before: string, chunks: seq<Chunk>, end: string, zeroLine: string)
    requires forall i :: 0 <= i < |chunks| ==> Readable(chunks[i])
    requires IsEnd(end, zeroLine)
    ensures DecodeFrom(before + Send(chunks, end), |before|) == Payload(chunks)
    decreases |chunks|
  {
    hide Readable, DecodeFrom, Framed, IsEnd;
    if chunks == [] {
      DecodeEnd(before, end, zeroLine);
    } else {
      var c, tail := chunks[0], Send(chunks[1..], end);
      DecodeFirst(before, c, tail);
      DecodeSent(before + Framed(c), chunks[1..], end, zeroLine);
      assert before + (Framed(c) + tail) == (before + Framed(c)) + tail;
    }
  }

  lemma DecodeFirst(before: string, c: Chunk, tail: string)
    requires Readable(c)
    ensures DecodeFrom(before + (Framed(c) + tail), |before|)
         == c.data + DecodeFrom(before + (Framed(c) + tail), |before + Framed(c)|)
  {
    hide FindCrlf, HexDec, NoCrlf, CrlfAt, DecodeFrom, Framed;
    ChunkAt(before, c, tail);
    DecodeChunk(before + (Framed(c) + tail), |before|, |c.sizeLine|, |c.data|);
  }

  /** A size in lower-case hexadecimal, as servers write it. */
  function Hex(n: nat): string {
    if n < 16 then [HexChar(n)] else Hex(n / 16) + [HexChar(n % 16)]
  }

  function HexChar(d: nat): char
    requires d < 16
  {
    if d < 10 then ('0' as int + d) as char else ('a' as int + d - 10) as char
  }

  lemma {:induction false} HexReads(n: nat)
    ensures HexDec(Hex(n)) == n && NoCrlf(Hex(n))
  {
    if n < 16 {
      assert Hex(n)[..0] == "";
    } else {
      HexReads(n / 16);
      assert Hex(n)[..|Hex(n)| - 1] == Hex(n / 16);
      forall j | 0 <= j
        ensures !CrlfAt(Hex(n), j)
      {
        assert !CrlfAt(Hex(n / 16), j);
      }
    }
  }

  function Plain(datas: seq<string>): seq<Chunk> {
    seq(|datas|, i requires 0 <= i < |datas| => Chunk(Hex(|datas[i]|), datas[i]))
  }

  function Concat(datas: seq<string>): string {
    if datas == [] then "" else datas[0] + Concat(datas[1..])
  }

  /** The round trip for chunks without extensions. */
  lemma ChunkedRoundTrip(datas: seq<string>, trailer: string)
    requires forall i :: 0 <= i < |datas| ==> datas[i] != ""
    ensures DecodeFrom(Send(Plain(datas), "0\r\n" + trailer), 0) == Concat(datas)
  {
    forall i | 0 <= i < |datas|
      ensures Readable(Plain(datas)[i])
    {
      HexReads(|datas[i]|);
    }
    HexReads(0);
    assert Hex(0) == "0";
    DecodeSent("", Plain(datas), "0\r\n" + trailer, "0");
    assert "" + Send(Plain(datas), "0\r\n" + trailer) == Send(Plain(datas), "0\r\n" + trailer);
    PayloadOfPlain(datas);
  }

  lemma {:induction false} PayloadOfPlain(datas: seq<string>)
    ensures Payload(Plain(datas)) == Concat(datas)
  {
    if datas != [] {
      assert Plain(datas)[1..] == Plain(datas[1..]);
      PayloadOfPlain(datas[1..]);
    }
  }

  /** A chunk extension is harmless exactly when it holds no hexadecimal digit:
      any digit in it is read as part of the size. */
  lemma {:induction false} ExtensionKeepsSize(size: string, ext: string)
    requires HexDec(size) > 0
    ensures HexDec(size + ext) == HexDec(size) <==> forall c :: c in ext ==> HexDigit(c) < 0
    ensures HexDec(size + ext) >= HexDec(size)
    decreases |ext|
  {
    if ext == "" {
      assert size + ext == size;
    } else {
      var n := |ext| - 1;
      assert (size + ext)[..|size + ext| - 1] == size + ext[..n];
      assert (size + ext)[|size + ext| - 1] == ext[n];
      ExtensionKeepsSize(size, ext[..n]);
      assert forall c :: c in ext <==> c in ext[..n] || c == ext[n];
    }
  }
}
