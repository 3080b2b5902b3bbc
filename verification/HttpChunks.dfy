/**
 * Chunked transfer coding (http11.c, section 7.1 of RFC 9112): the chunk
 * builders and the receiving loop over a complete buffer.
 */
module HttpChunks {
  import opened Basics
  import opened SequenceNumbers

  const CR: byte := 13
  const LF: byte := 10
  const ZERO: byte := 48
  const PLUS: byte := 43
  const MINUS: byte := 45
  const ENOSPC: int := 28
  const ULONG_RANGE: int := 0x1_0000_0000_0000_0000

  const CRLF: seq<byte> := [CR, LF]

  /** The last chunk and the empty trailer section. */
  const END: seq<byte> := [ZERO, CR, LF, CR, LF]

  // --------------------------------------------------------------------- hex

  function HexChar(d: nat): (c: byte)
    requires d < 16
    ensures HexOf(c) == d && c != CR && c != LF
  {
    if d < 10 then 48 + d else 87 + d
  }

  /** The value of a hexadecimal digit, or -1. */
  function HexOf(c: byte): int {
    if 48 <= c < 58 then c - 48 else if 97 <= c < 103 then c - 87 else if 65 <= c < 71 then c - 55 else -1
  }

  /** The conversion "%x". */
  function HexDigits(n: nat): (s: seq<byte>)
    ensures |s| > 0
    ensures forall i :: 0 <= i < |s| ==> HexOf(s[i]) >= 0 && s[i] != CR
  {
    if n < 16 then [HexChar(n)] else HexDigits(n / 16) + [HexChar(n % 16)]
  }

  /** What a lower-case hexadecimal digit stands for. */
  predicate IsDigit(c: byte, d: nat) {
    if d < 10 then c == '0' as int + d else d < 16 && c == 'a' as int + (d - 10)
  }

  /** A size line spelled out: lower-case digits, most significant first, without leading zeros. */
  lemma {:induction false} HexExact(n: nat)
    ensures var s := HexDigits(n);
            && IsDigit(s[|s| - 1], n % 16)
            && (if n < 16 then |s| == 1 else s[..|s| - 1] == HexDigits(n / 16))
            && (s[0] == '0' as int ==> n == 0)
    decreases n
  {
    if n >= 16 { HexExact(n / 16); }
  }

  /** Frame and end marker on the wire. */
  lemma ChunkOnTheWire(data: seq<byte>)
    ensures Chunk(data) == HexDigits(|data|) + [13, 10] + data + [13, 10]
    ensures END == ['0' as int, 13, 10, 13, 10]
  {
    hide HexDigits;
  }

  /** The value of the leading hexadecimal digits. */
  function LeadingHex(s: seq<byte>, acc: nat): nat {
    if s == [] || HexOf(s[0]) < 0 then acc else LeadingHex(s[1..], acc * 16 + HexOf(s[0]))
  }

  lemma {:induction false} LeadingHexThrough(s: seq<byte>, t: seq<byte>, acc: nat)
    requires forall i :: 0 <= i < |s| ==> HexOf(s[i]) >= 0
    ensures LeadingHex(s + t, acc) == LeadingHex(t, LeadingHex(s, acc))
    decreases |s|
  {
    if s == [] {
      assert s + t == t;
    } else {
      assert (s + t)[1..] == s[1..] + t;
      LeadingHexThrough(s[1..], t, acc * 16 + HexOf(s[0]));
    }
  }

  lemma {:induction false} HexRoundTrip(n: nat)
    ensures LeadingHex(HexDigits(n), 0) == n
  {
    if n < 16 {
      assert HexDigits(n)[1..] == [];
    } else {
      var last := [HexChar(n % 16)];
      LeadingHexThrough(HexDigits(n / 16), last, 0);
      HexRoundTrip(n / 16);
      assert last[1..] == [];
    }
  }

  lemma HexLength(n: nat)
    requires n <= 0xFFFF_FFFF
    ensures |HexDigits(n)| <= 8
    ensures n <= 4096 ==> |HexDigits(n)| <= 4
  {
    Shorter(n, 7);
    if n <= 4096 { Shorter(n, 3); }
  }

  function Pow16(k: nat): (p: nat)
    ensures p > 0
  {
    if k == 0 then 1 else 16 * Pow16(k - 1)
  }

  lemma {:induction false} Shorter(n: nat, k: nat)
    requires n < 16 * Pow16(k)
    ensures |HexDigits(n)| <= k + 1
  {
    if k > 0 && n >= 16 { Shorter(n / 16, k - 1); }
  }

  // ------------------------------------------------------------------ builder

  function Chunk(data: seq<byte>): seq<byte> { HexDigits(|data|) + CRLF + data + CRLF }

  /** http11_tx_chunk: the whole frame, or nothing when it does not fit. */
  method BuildChunk(buf: array<byte>, size: nat, data: seq<byte>) returns (n: int)
    requires size <= buf.Length && |data| < MODULUS
    modifies buf
    ensures n == if |Chunk(data)| > size then -ENOSPC else |Chunk(data)|
    ensures n < 0 ==> buf[..] == old(buf[..])
    ensures n >= 0 ==> buf[..] == Chunk(data) + old(buf[n..])
  {
    var hdr := HexDigits(|data|) + CRLF;
    var total := |hdr| + |data| + 2;
    if total > size { return -ENOSPC; }
    forall i | 0 <= i < |hdr| { buf[i] := hdr[i]; }
    forall i | 0 <= i < |data| { buf[|hdr| + i] := data[i]; }
    buf[|hdr| + |data|] := CR;
    buf[|hdr| + |data| + 1] := LF;
    return total;
  }

  /** http11_tx_chunk_end */
  method BuildEnd(buf: array<byte>, size: nat) returns (n: int)
    requires size <= buf.Length
    modifies buf
    ensures n == if size < 5 then -ENOSPC else 5
    ensures n < 0 ==> buf[..] == old(buf[..])
    ensures n >= 0 ==> buf[..] == END + old(buf[5..])
  {
    if size < 5 { return -ENOSPC; }
    forall i | 0 <= i < 5 { buf[i] := END[i]; }
    return 5;
  }

  // ------------------------------------------------------------------ decoder

  /** Position just after the first line end at or after i. */
  function Crlf(s: seq<byte>, i: nat): (r: Option<nat>)
    ensures r.Some? ==> i + 2 <= r.value <= |s| && s[r.value - 2] == CR && s[r.value - 1] == LF
    ensures forall k :: i <= k < (if r.Some? then r.value - 2 else |s| - 1) ==> !(s[k] == CR && s[k + 1] == LF)
    decreases |s| - i
  {
    if i + 1 >= |s| then None else if s[i] == CR && s[i + 1] == LF then Some(i + 2) else Crlf(s, i + 1)
  }

  /** find_crlf from position p on. */
  method FindCrlf(s: seq<byte>, p: nat) returns (r: Option<nat>)
    requires p <= |s|
    ensures r == Crlf(s, p)
  {
    var i := p;
    while i + 1 < |s|
      invariant p <= i <= |s| && Crlf(s, i) == Crlf(s, p)
    {
      if s[i] == CR && s[i + 1] == LF { return Some(i + 2); }
      i := i + 1;
    }
    return None;
  }

  /** Where a body lies in the receive buffer. */
  datatype Slice = Slice(at: nat, len: u32)

  /** How the receiving loop leaves a complete buffer. */
  datatype Outcome = Outcome(done: bool, parsed: nat, bodies: seq<Slice>)

  function SkipBlanks(s: seq<byte>): seq<byte> {
    if s != [] && (s[0] == 32 || 9 <= s[0] < 14) then SkipBlanks(s[1..]) else s
  }

  /** strtoul in base 16: blanks, a sign, a 0x prefix, digits; negated modulo 2^64 or stopped at its maximum. */
  function Strtoul(s: seq<byte>): (n: nat) {
    var t := SkipBlanks(s);
    var signed := t != [] && (t[0] == MINUS || t[0] == PLUS);
    var u := if signed then t[1..] else t;
    var v := if |u| >= 3 && u[0] == ZERO && (u[1] == 120 || u[1] == 88) && HexOf(u[2]) >= 0 then u[2..] else u;
    var m := LeadingHex(v, 0);
    if m >= ULONG_RANGE then ULONG_RANGE - 1
    else if signed && t[0] == MINUS then (ULONG_RANGE - m) % ULONG_RANGE
    else m
  }

  function SizeAt(s: seq<byte>, p: nat): u32
    requires p <= |s|
  {
    Wrap(Strtoul(s[p..]))
  }

  /** On text that starts with digits and is no 0x prefix, strtoul reads the digits. */
  lemma StrtoulDigits(s: seq<byte>)
    requires s != [] && HexOf(s[0]) >= 0 && (|s| >= 2 ==> s[1] != 120 && s[1] != 88) && LeadingHex(s, 0) < ULONG_RANGE
    ensures Strtoul(s) == LeadingHex(s, 0)
  {
    hide LeadingHex;
  }

  /** Text that starts with digits and is no 0x prefix. */
  predicate StartsDigits(s: seq<byte>) { s != [] && HexOf(s[0]) >= 0 && (|s| >= 2 ==> s[1] != 120 && s[1] != 88) }

  /** A number stopped at the largest 64-bit value. */
  function Stopped(n: nat): nat { if n < 0x1_0000_0000_0000_0000 then n else 0xFFFF_FFFF_FFFF_FFFF }

  /** The other forms: leading blanks, signs, the 0x prefix and the largest value. */
  lemma StrtoulForms(s: seq<byte>)
    requires StartsDigits(s)
    ensures Strtoul(s) == Strtoul([43] + s) == Strtoul([48, 120] + s) == Stopped(LeadingHex(s, 0))
    ensures Strtoul([45] + s) == if 0 < LeadingHex(s, 0) < 0x1_0000_0000_0000_0000 then 0x1_0000_0000_0000_0000 - LeadingHex(s, 0)
                                 else Stopped(LeadingHex(s, 0))
  {
    hide LeadingHex;
    StrtoulPlain(s);
    StrtoulSigned(s, 43);
    StrtoulSigned(s, 45);
    StrtoulPrefixed(s);
    hide Strtoul;
  }

  /** Blanks in front of anything change nothing. */
  lemma StrtoulBlank(s: seq<byte>, blank: byte)
    requires blank == 32 || 9 <= blank < 14
    ensures Strtoul([blank] + s) == Strtoul(s)
  {
    assert ([blank] + s)[1..] == s;
    assert SkipBlanks([blank] + s) == SkipBlanks(s);
    hide LeadingHex, SkipBlanks;
  }

  lemma StrtoulPlain(s: seq<byte>)
    requires StartsDigits(s)
    ensures Strtoul(s) == Stopped(LeadingHex(s, 0))
  {
    assert SkipBlanks(s) == s;
    hide LeadingHex, SkipBlanks;
  }

  lemma StrtoulSigned(s: seq<byte>, sign: byte)
    requires StartsDigits(s) && (sign == 43 || sign == 45)
    ensures Strtoul([sign] + s) == if sign == 45 && 0 < LeadingHex(s, 0) < 0x1_0000_0000_0000_0000
                                   then 0x1_0000_0000_0000_0000 - LeadingHex(s, 0) else Stopped(LeadingHex(s, 0))
  {
    var t := [sign] + s;
    assert SkipBlanks(t) == t && t[1..] == s;
    hide LeadingHex, SkipBlanks;
  }

  lemma StrtoulPrefixed(s: seq<byte>)
    requires StartsDigits(s)
    ensures Strtoul([48, 120] + s) == Stopped(LeadingHex(s, 0))
  {
    var t := [48, 120] + s;
    assert SkipBlanks(t) == t && t[2..] == s && t[2] == s[0];
    hide LeadingHex, SkipBlanks;
  }

  /** Text that starts with no number is read as 0. */
  lemma StrtoulNothing(s: seq<byte>)
    requires s == [] || (HexOf(s[0]) < 0 && s[0] != 32 && !(9 <= s[0] < 14) && s[0] != 43 && s[0] != 45)
    ensures Strtoul(s) == 0
  {
  }

  /** A body and the line end behind it, in 32-bit arithmetic. */
  function Advance(size: u32): u32 { Wrap((size as int) + 2) }

  /** The HTTP_WAIT_CHUNK branch of http11_rx_data. */
  function Read(s: seq<byte>, p: nat, bodies: seq<Slice>): Outcome
    requires p <= |s|
    decreases |s| - p
  {
    match Crlf(s, p)
    case None => Outcome(false, p, bodies)
    case Some(q) =>
      var size := SizeAt(s, p);
      if size == 0 then Outcome(true, q + 2, bodies)
      else if |s| - q < Advance(size) then Outcome(false, q, bodies)
      else Read(s, q + Advance(size), bodies + [Slice(q, size)])
  }

  method RxChunks(s: seq<byte>) returns (out: Outcome)
    ensures out == Read(s, 0, [])
  {
    var parsed, bodies := 0, [];
    hide Crlf, SizeAt, Advance;
    while true
      invariant parsed <= |s| && Read(s, parsed, bodies) == Read(s, 0, [])
      decreases |s| - parsed
    {
      var eol := FindCrlf(s, parsed);
      if eol.None? { return Outcome(false, parsed, bodies); }
      var size := SizeAt(s, parsed);
      parsed := eol.value;
      if size == 0 { return Outcome(true, parsed + 2, bodies); }
      if |s| - parsed < Advance(size) { return Outcome(false, parsed, bodies); }
      bodies := bodies + [Slice(parsed, size)];
      parsed := parsed + Advance(size);
    }
  }

  // --------------------------------------------------------------- round trip

  function Chunks(list: seq<seq<byte>>): seq<byte> {
    if list == [] then [] else Chunk(list[0]) + Chunks(list[1..])
  }

  /** The slices of a list of chunks laid out from position p. */
  function Slices(list: seq<seq<byte>>, p: nat): (r: seq<Slice>)
    requires forall i :: 0 <= i < |list| ==> |list[i]| < MODULUS
    ensures |r| == |list|
  {
    if list == [] then []
    else [Slice(p + |HexDigits(|list[0]|)| + 2, |list[0]|)] + Slices(list[1..], p + |Chunk(list[0])|)
  }

  /** A size line is read back: its end, and the number on it. */
  lemma SizeLine(s: seq<byte>, p: nat, n: nat, rest: seq<byte>)
    requires p <= |s| && s[p..] == HexDigits(n) + CRLF + rest && n < MODULUS
    ensures Crlf(s, p) == Some(p + |HexDigits(n)| + 2) && SizeAt(s, p) == n
  {
    var d := HexDigits(n);
    HexRoundTrip(n);
    LeadingHexThrough(d, CRLF + rest, 0);
    assert LeadingHex(CRLF + rest, n) == n by { assert HexOf((CRLF + rest)[0]) < 0; }
    hide HexDigits, LeadingHex, Crlf, Strtoul;
    Assoc(d, CRLF, rest);
    var t := d + (CRLF + rest);
    assert t[0] == d[0] && t[1] == if |d| > 1 then d[1] else CR;
    StrtoulDigits(t);
    WrapSmall(n);
    FirstLineEnd(s, p, p, d, rest);
  }

  lemma {:induction false} FirstLineEnd(s: seq<byte>, p: nat, i: nat, d: seq<byte>, rest: seq<byte>)
    requires p <= i <= p + |d| && p <= |s| && s[p..] == d + CRLF + rest && forall k :: 0 <= k < |d| ==> d[k] != CR
    ensures Crlf(s, i) == Some(p + |d| + 2)
    decreases p + |d| - i
  {
    assert i + 1 < |s| && s[i] == s[p..][i - p] && s[i + 1] == s[p..][i + 1 - p];
    if i < p + |d| {
      assert s[i] == d[i - p];
      FirstLineEnd(s, p, i + 1, d, rest);
    }
  }

  lemma Parts<T>(s: seq<T>, p: nat, a: seq<T>, b: seq<T>, c: seq<T>)
    requires p <= |s| && s[p..] == a + b + c
    ensures p + |a| + |b| <= |s| && s[p + |a|..p + |a| + |b|] == b && s[p + |a| + |b|..] == c
  {
    var t := s[p..];
    assert |t| == |a| + |b| + |c|;
    assert t[|a|..|a| + |b|] == b && t[|a| + |b|..] == c;
    assert s[p + |a|..p + |a| + |b|] == t[|a|..|a| + |b|] && s[p + |a| + |b|..] == t[|a| + |b|..];
  }

  lemma ChunkAt(s: seq<byte>, p: nat, data: seq<byte>, rest: seq<byte>)
    requires p <= |s| && s[p..] == Chunk(data) + rest
    ensures var q := p + |HexDigits(|data|)| + 2;
            && q + |data| + 2 == p + |Chunk(data)| <= |s|
            && s[q..q + |data|] == data && s[p + |Chunk(data)|..] == rest
    ensures s[p..] == HexDigits(|data|) + CRLF + (data + CRLF + rest)
  {
    hide HexDigits;
    var head := HexDigits(|data|) + CRLF;
    assert Chunk(data) == head + data + CRLF;
    Assoc(head, data, CRLF);
    Assoc(head, data + CRLF, rest);
    Assoc(head + data, CRLF, rest);
    Parts(s, p, head, data, CRLF + rest);
    Parts(s, p, head + data, CRLF, rest);
  }

  lemma ReadEnd(s: seq<byte>, p: nat, rest: seq<byte>, acc: seq<Slice>)
    requires p <= |s| && s[p..] == END + rest
    ensures Read(s, p, acc) == Outcome(true, p + 5, acc)
  {
    assert HexDigits(0) == [ZERO];
    assert END + rest == [ZERO] + CRLF + (CRLF + rest);
    hide HexDigits, SizeAt, Crlf;
    SizeLine(s, p, 0, CRLF + rest);
  }

  lemma ReadChunk(s: seq<byte>, p: nat, data: seq<byte>, rest: seq<byte>, acc: seq<Slice>)
    requires p <= |s| && s[p..] == Chunk(data) + rest && 0 < |data| < MODULUS - 2
    ensures var q := p + |HexDigits(|data|)| + 2;
            && p + |Chunk(data)| <= |s|
            && Read(s, p, acc) == Read(s, p + |Chunk(data)|, acc + [Slice(q, |data|)])
  {
    hide HexDigits, SizeAt, Crlf, Chunk;
    ChunkAt(s, p, data, rest);
    SizeLine(s, p, |data|, data + CRLF + rest);
    var q := p + |HexDigits(|data|)| + 2;
    AdvanceExact(|data|);
    hide Advance;
  }

  lemma AdvanceExact(n: nat)
    requires n < MODULUS - 2
    ensures Advance(n) == n + 2
  {
    WrapSmall(n + 2);
  }

  /**
   * Decoding inverts encoding: every list of non-empty chunks followed by the
   * end marker is read to the end, giving back exactly those chunks.
   */
  lemma {:induction false} ReadsBack(s: seq<byte>, p: nat, list: seq<seq<byte>>, rest: seq<byte>, acc: seq<Slice>)
    requires p <= |s| && s[p..] == Chunks(list) + END + rest
    requires forall i :: 0 <= i < |list| ==> 0 < |list[i]| < MODULUS - 2
    ensures Read(s, p, acc) == Outcome(true, p + |Chunks(list)| + 5, acc + Slices(list, p))
    decreases |list|
  {
    hide HexDigits, Chunk, Read;
    if list == [] {
      assert s[p..] == END + rest;
      ReadEnd(s, p, rest, acc);
      assert acc + Slices(list, p) == acc;
    } else {
      var tail := Chunks(list[1..]) + END + rest;
      var b := Slice(p + |HexDigits(|list[0]|)| + 2, |list[0]|);
      var more := Slices(list[1..], p + |Chunk(list[0])|);
      assert Slices(list, p) == [b] + more;
      assert |Chunks(list)| == |Chunk(list[0])| + |Chunks(list[1..])|;
      FirstChunk(s, p, list, rest);
      hide Chunks, Slices;
      ReadChunk(s, p, list[0], tail, acc);
      ChunkAt(s, p, list[0], tail);
      ReadsBack(s, p + |Chunk(list[0])|, list[1..], rest, acc + [b]);
      Assoc(acc, [b], more);
    }
  }

  lemma FirstChunk(s: seq<byte>, p: nat, list: seq<seq<byte>>, rest: seq<byte>)
    requires p <= |s| && s[p..] == Chunks(list) + END + rest && list != []
    ensures s[p..] == Chunk(list[0]) + (Chunks(list[1..]) + END + rest)
  {
    hide Chunk;
    Assoc(Chunk(list[0]), Chunks(list[1..]), END);
    Assoc(Chunk(list[0]), Chunks(list[1..]) + END, rest);
  }

  predicate Holds(s: seq<byte>, b: Slice, data: seq<byte>) {
    b.at + b.len <= |s| && s[b.at..b.at + b.len] == data
  }

  /** The slices hold the chunks' bytes. */
  lemma {:induction false} SlicesHold(s: seq<byte>, p: nat, list: seq<seq<byte>>, rest: seq<byte>, i: nat)
    requires p <= |s| && s[p..] == Chunks(list) + END + rest && i < |list|
    requires forall i :: 0 <= i < |list| ==> 0 < |list[i]| < MODULUS - 2
    ensures Holds(s, Slices(list, p)[i], list[i])
    decreases |list|
  {
    var tail := Chunks(list[1..]) + END + rest;
    var b := Slice(p + |HexDigits(|list[0]|)| + 2, |list[0]|);
    var more := Slices(list[1..], p + |Chunk(list[0])|);
    assert Slices(list, p) == [b] + more;
    FirstChunk(s, p, list, rest);
    hide HexDigits, Chunk, Chunks, Slices;
    ChunkAt(s, p, list[0], tail);
    if i > 0 { SlicesHold(s, p + |Chunk(list[0])|, list[1..], rest, i - 1); }
  }

  /** The bytes a sequence of slices points at, in order. */
  function Gather(s: seq<byte>, bodies: seq<Slice>): seq<byte> {
    if bodies == [] then []
    else
      var b := bodies[|bodies| - 1];
      Gather(s, bodies[..|bodies| - 1]) + if b.at + b.len <= |s| then s[b.at..b.at + b.len] else []
  }

  function Joined(list: seq<seq<byte>>): seq<byte> {
    if list == [] then [] else Joined(list[..|list| - 1]) + list[|list| - 1]
  }

  lemma {:induction false} GatherJoins(s: seq<byte>, bodies: seq<Slice>, list: seq<seq<byte>>)
    requires |bodies| == |list| && forall i :: 0 <= i < |list| ==> Holds(s, bodies[i], list[i])
    ensures Gather(s, bodies) == Joined(list)
    decreases |list|
  {
    if list != [] {
      var n := |list| - 1;
      var b := bodies[n];
      assert Holds(s, b, list[n]);
      assert Gather(s, bodies) == Gather(s, bodies[..n]) + list[n];
      assert Joined(list) == Joined(list[..n]) + list[n];
      hide Holds, Gather, Joined;
      GatherJoins(s, bodies[..n], list[..n]);
    }
  }

  /** The receiving loop consumes the whole body and its slices hold `data`. */
  predicate DecodesTo(body: seq<byte>, data: seq<byte>) {
    var out := Read(body, 0, []);
    out.done && out.parsed == |body| && Gather(body, out.bodies) == data
  }

  /** A chunk that has not arrived in full is not reported: reading waits where the chunk, or its body, starts. */
  lemma WaitsForBody(s: seq<byte>, p: nat, data: seq<byte>, m: nat, acc: seq<Slice>)
    requires p <= |s| && 0 < |data| < MODULUS - 2 && m < |data| + 2
    requires s[p..] == HexDigits(|data|) + CRLF + (data + CRLF)[..m]
    ensures Read(s, p, acc) == Outcome(false, p + |HexDigits(|data|)| + 2, acc)
  {
    SizeLine(s, p, |data|, (data + CRLF)[..m]);
    WrapSmall(|data| + 2);
    assert |s| - p == |HexDigits(|data|)| + 2 + m;
    hide HexDigits, Crlf, SizeAt, Wrap;
  }

  lemma WaitsForSize(s: seq<byte>, p: nat, acc: seq<Slice>)
    requires p <= |s| && forall k :: p <= k < |s| ==> s[k] != LF
    ensures Read(s, p, acc) == Outcome(false, p, acc)
  {
    assert Crlf(s, p).None?;
    hide Crlf;
  }

  /** Round trip: every chunked body decodes to the chunks put together. */
  lemma ChunkedRoundTrip(list: seq<seq<byte>>)
    requires forall i :: 0 <= i < |list| ==> 0 < |list[i]| < MODULUS - 2
    ensures DecodesTo(Chunks(list) + END, Joined(list))
  {
    hide Chunks, Read, Slices, Gather, Joined, Holds;
    var body := Chunks(list) + END;
    assert body[0..] == Chunks(list) + END + [];
    ReadsBack(body, 0, list, [], []);
    var slices := Slices(list, 0);
    assert [] + slices == slices;
    forall i | 0 <= i < |list| ensures Holds(body, slices[i], list[i]) { SlicesHold(body, 0, list, [], i); }
    GatherJoins(body, slices, list);
  }
}
