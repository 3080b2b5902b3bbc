/**
 * TCP options (tcp_options.c). Writers and parser meet in a list of option
 * tokens: the writers fill a buffer with the encoding of a list, and the parser
 * folds the list its bytes encode into a record.
 */
module TcpOptions {
  import opened Basics
  import opened SequenceNumbers

  const EOL: byte := 0
  const NOP: byte := 1
  const MSS: byte := 2
  const WINDOW_SCALE: byte := 3
  const SACK_PERM: byte := 4
  const SACK: byte := 5
  const TIMESTAMP: byte := 8

  datatype Block = Block(left: u32, right: u32)

  datatype Parsed = Parsed(
    hasMss: bool, mss: u16, hasWscale: bool, wscale: byte, hasSackPerm: bool,
    hasTimestamps: bool, tsVal: u32, tsEcr: u32, sack: seq<Block>)

  const NONE: Parsed := Parsed(false, 0, false, 0, false, false, 0, 0, [])

  // ---------------------------------------------------------------- integers

  /** A 32-bit integer in network order. */
  function Big(x: u32): (b: seq<byte>)
    ensures |b| == 4
  {
    [x / 0x100_0000, x / 0x1_0000 % 0x100, x / 0x100 % 0x100, x % 0x100]
  }

  function Word(b: seq<byte>): u32
    requires |b| == 4
  {
    (b[0] as int) * 0x100_0000 + (b[1] as int) * 0x1_0000 + (b[2] as int) * 0x100 + b[3]
  }

  lemma WordBig(x: u32)
    ensures Word(Big(x)) == x
  {
    TwoShifts(x, 0x100);
    TwoShifts(x, 0x1_0000);
    LowByte(x);
    LowByte(x / 0x100);
    LowByte(x / 0x1_0000);
  }

  lemma TwoShifts(x: nat, k: nat)
    requires k == 0x100 || k == 0x1_0000
    ensures x / k / 0x100 == x / (k * 0x100)
  {
  }

  lemma LowByte(x: nat)
    ensures x == x / 0x100 * 0x100 + x % 0x100
  {
  }

  function BlockBytes(b: Block): (s: seq<byte>)
    ensures |s| == 8
  {
    Big(b.left) + Big(b.right)
  }

  function BlockAt(v: seq<byte>, i: nat): Block
    requires 8 * i + 8 <= |v|
  {
    Block(Word(v[8 * i..8 * i + 4]), Word(v[8 * i + 4..8 * i + 8]))
  }

  function AllBlockBytes(blocks: seq<Block>): (s: seq<byte>)
    ensures |s| == 8 * |blocks|
  {
    if blocks == [] then [] else AllBlockBytes(blocks[..|blocks| - 1]) + BlockBytes(blocks[|blocks| - 1])
  }

  lemma {:induction false} BlockAtOf(blocks: seq<Block>, i: nat)
    requires i < |blocks|
    ensures BlockAt(AllBlockBytes(blocks), i) == blocks[i]
    decreases |blocks|
  {
    var front, last := blocks[..|blocks| - 1], blocks[|blocks| - 1];
    var f, s := AllBlockBytes(front), AllBlockBytes(blocks);
    if i < |front| {
      BlockAtOf(front, i);
      assert s[8 * i..8 * i + 4] == f[8 * i..8 * i + 4] && s[8 * i + 4..8 * i + 8] == f[8 * i + 4..8 * i + 8];
    } else {
      assert s[8 * i..8 * i + 4] == Big(last.left) && s[8 * i + 4..8 * i + 8] == Big(last.right);
      WordBig(last.left);
      WordBig(last.right);
    }
  }

  // ------------------------------------------------------------------ tokens

  datatype Token = Nop | Tlv(kind: byte, value: seq<byte>)

  predicate Legal(t: Token) {
    t.Tlv? ==> t.kind != EOL && t.kind != NOP && |t.value| <= 253
  }

  predicate AllLegal(ts: seq<Token>) { forall i :: 0 <= i < |ts| ==> Legal(ts[i]) }

  function Encode(t: Token): (s: seq<byte>)
    requires Legal(t)
    ensures |s| > 0
  {
    if t.Nop? then [NOP] else [t.kind, |t.value| + 2] + t.value
  }

  function EncodeAll(ts: seq<Token>): seq<byte>
    requires AllLegal(ts)
  {
    if ts == [] then [] else Encode(ts[0]) + EncodeAll(ts[1..])
  }

  /** The options of a byte string: up to its end, an end marker or a malformed option. */
  function Tokens(s: seq<byte>): (ts: seq<Token>)
    ensures AllLegal(ts)
    decreases |s|
  {
    if s == [] || s[0] == EOL then []
    else if s[0] == NOP then [Nop] + Tokens(s[1..])
    else if |s| < 2 || s[1] < 2 || s[1] > |s| then []
    else [Tlv(s[0], s[2..s[1]])] + Tokens(s[s[1]..])
  }

  /** Nothing more can be read: the end, an end marker, or an option cut short or of impossible length. */
  predicate Stops(s: seq<byte>) {
    s == [] || s[0] == EOL || (s[0] != NOP && (|s| < 2 || s[1] < 2 || s[1] > |s|))
  }

  lemma TokensUnfold(t: Token, more: seq<byte>)
    requires Legal(t)
    ensures Tokens(Encode(t) + more) == [t] + Tokens(more)
  {
    var e := Encode(t);
    var s := e + more;
    assert s[|e|..] == more;
    if t.Tlv? { assert s[2..|e|] == t.value; }
  }

  /** Reading an encoded list gives the list back, whatever follows it. */
  lemma {:induction false} TokensOfEncoded(ts: seq<Token>, rest: seq<byte>)
    requires AllLegal(ts)
    ensures Tokens(EncodeAll(ts) + rest) == ts + Tokens(rest)
    decreases |ts|
  {
    if ts == [] {
      assert EncodeAll(ts) + rest == rest;
    } else {
      hide Tokens, Encode;
      TokensOfEncoded(ts[1..], rest);
      Assoc(Encode(ts[0]), EncodeAll(ts[1..]), rest);
      TokensUnfold(ts[0], EncodeAll(ts[1..]) + rest);
      Assoc([ts[0]], ts[1..], Tokens(rest));
      assert ts == [ts[0]] + ts[1..];
    }
  }

  /** Every byte string is the encoding of what is read from it, followed by a point where reading must stop. */
  lemma {:induction false} TokensReadBack(s: seq<byte>) returns (rest: seq<byte>)
    ensures s == EncodeAll(Tokens(s)) + rest && Stops(rest)
    decreases |s|
  {
    if Stops(s) {
      rest := s;
    } else {
      var t, n := TokensStep(s);
      hide Tokens, Encode, Stops, Legal;
      rest := TokensReadBack(s[n..]);
      EncodeCons(t, Tokens(s[n..]));
      hide AllLegal, EncodeAll;
      Assoc(Encode(t), EncodeAll(Tokens(s[n..])), rest);
    }
  }

  lemma TokensStep(s: seq<byte>) returns (t: Token, n: nat)
    requires !Stops(s)
    ensures Legal(t) && 0 < n <= |s| && Tokens(s) == [t] + Tokens(s[n..]) && s == Encode(t) + s[n..]
  {
    n := if s[0] == NOP then 1 else s[1];
    t := if s[0] == NOP then Nop else Tlv(s[0], s[2..n]);
    assert Encode(t) == s[..n];
    assert s == s[..n] + s[n..];
    hide Encode;
  }

  /** The reading is the only one: both directions of the parser's grammar. */
  lemma TokensExact(s: seq<byte>, ts: seq<Token>)
    requires AllLegal(ts)
    ensures ts == Tokens(s) <==> exists rest :: Stops(rest) && s == EncodeAll(ts) + rest
  {
    if ts == Tokens(s) {
      var rest := TokensReadBack(s);
    }
    if rest :| Stops(rest) && s == EncodeAll(ts) + rest {
      TokensOfEncoded(ts, rest);
    }
  }

  lemma LegalParts(ts: seq<Token>, us: seq<Token>)
    ensures AllLegal(ts + us) <==> AllLegal(ts) && AllLegal(us)
  {
    forall i | 0 <= i < |us| ensures us[i] == (ts + us)[|ts| + i] {}
    forall i | 0 <= i < |ts| ensures ts[i] == (ts + us)[i] {}
  }

  lemma EncodeCons(t: Token, ts: seq<Token>)
    requires Legal(t) && AllLegal(ts)
    ensures AllLegal([t] + ts) && EncodeAll([t] + ts) == Encode(t) + EncodeAll(ts)
  {
    assert ([t] + ts)[1..] == ts;
  }

  lemma {:induction false} EncodeConcat(ts: seq<Token>, us: seq<Token>)
    requires AllLegal(ts) && AllLegal(us)
    ensures AllLegal(ts + us) && EncodeAll(ts + us) == EncodeAll(ts) + EncodeAll(us)
    decreases |ts|
  {
    if ts == [] {
      assert ts + us == us;
    } else {
      var t, rest := ts[0], ts[1..];
      assert ts == [t] + rest && Legal(t);
      hide Encode, EncodeAll, AllLegal;
      LegalParts([t], rest);
      EncodeConcat(rest, us);
      EncodeCons(t, rest);
      EncodeCons(t, rest + us);
      Assoc([t], rest, us);
      Assoc(Encode(t), EncodeAll(rest), EncodeAll(us));
    }
  }

  // ------------------------------------------------------------------ parser

  /** Blocks of a SACK option join those already read, up to four. */
  function AddBlocks(sack: seq<Block>, v: seq<byte>): (r: seq<Block>)
  {
    var k := Min(|v| / 8, Max(4 - |sack|, 0));
    sack + seq(k, i requires 0 <= i < k => BlockAt(v, i))
  }

  /** The effect of one option. */
  function Apply(out: Parsed, t: Token): Parsed {
    if t.Nop? then out
    else if t.kind == MSS && |t.value| == 2 then
      out.(hasMss := true, mss := (t.value[0] as int) * 0x100 + t.value[1])
    else if t.kind == WINDOW_SCALE && |t.value| == 1 then
      out.(hasWscale := true, wscale := Min(t.value[0], 14))
    else if t.kind == SACK_PERM then out.(hasSackPerm := true)
    else if t.kind == TIMESTAMP && |t.value| == 8 then
      out.(hasTimestamps := true, tsVal := Word(t.value[..4]), tsEcr := Word(t.value[4..]))
    else if t.kind == SACK then out.(sack := AddBlocks(out.sack, t.value))
    else out
  }

  /** Options of another kind, or of a length that does not suit their kind, have no effect. */
  lemma OthersIgnored(out: Parsed, t: Token)
    requires t.Tlv?
    requires t.kind != 4 && t.kind != 5
    requires (t.kind == 2 ==> |t.value| != 2) && (t.kind == 3 ==> |t.value| != 1) && (t.kind == 8 ==> |t.value| != 8)
    ensures Apply(out, t) == out
  {
  }

  function Fold(out: Parsed, ts: seq<Token>): Parsed
    decreases |ts|
  {
    if ts == [] then out else Fold(Apply(out, ts[0]), ts[1..])
  }

  lemma {:induction false} FoldConcat(out: Parsed, ts: seq<Token>, us: seq<Token>)
    ensures Fold(out, ts + us) == Fold(Fold(out, ts), us)
    decreases |ts|
  {
    if ts == [] {
      assert ts + us == us;
    } else {
      assert (ts + us)[1..] == ts[1..] + us;
      FoldConcat(Apply(out, ts[0]), ts[1..], us);
    }
  }

  /** Length in bytes of the option area announced by the data-offset byte; negative below a full header. */
  function AreaLength(dataOff: byte): int { (dataOff / 16 - 5) * 4 }

  /** The SACK branch: the loop that copies blocks out. */
  method CopyBlocks(sack: seq<Block>, v: seq<byte>) returns (r: seq<Block>)
    requires |sack| <= 4
    ensures r == AddBlocks(sack, v) && |r| <= 4
  {
    r := sack;
    if |v| + 2 >= 10 && |sack| < 4 {
      var i := 0;
      while i < |v| / 8 && |r| < 4
        invariant i <= |v| / 8 && |sack| + i == |r| <= 4
        invariant forall k :: 0 <= k < |r| ==> r[k] == if k < |sack| then sack[k] else BlockAt(v, k - |sack|)
      {
        r := r + [BlockAt(v, i)];
        i := i + 1;
      }
    }
  }

  /**
   * tcp_options_parse on the bytes after the fixed header: it fails exactly on
   * a header shorter than five words, and otherwise folds the options of the
   * announced area.
   */
  method Parse(dataOff: byte, area: seq<byte>) returns (ok: bool, out: Parsed)
    requires |area| >= AreaLength(dataOff)
    ensures ok <==> AreaLength(dataOff) >= 0
    ensures out == if ok then Fold(NONE, Tokens(area[..AreaLength(dataOff)])) else NONE
    ensures |out.sack| <= 4
  {
    if dataOff / 16 < 5 { return false, NONE; }
    var end := AreaLength(dataOff);
    assert end >= 0;
    hide Fold, Tokens;
    out := ParseArea(area, end);
    return true, out;
  }

  /** The option loop over the first `end` bytes. */
  method ParseArea(area: seq<byte>, end: nat) returns (out: Parsed)
    requires end <= |area|
    ensures out == Fold(NONE, Tokens(area[..end])) && |out.sack| <= 4
  {
    out := NONE;
    ghost var s := area[..end];
    var p := 0;
    assert s[0..] == s;
    hide *;
    while p < end
      invariant 0 <= p <= end
      invariant |out.sack| <= 4
      invariant Fold(out, From(s, p)) == Fold(NONE, Tokens(s))
      decreases end - p
    {
      var stop: bool;
      stop, p, out := ParseOne(area, end, p, out);
      if stop { return; }
    }
    StopsHere(out, s, p);
  }

  /** One turn of the loop: the option at p, or the reason to stop there. */
  method ParseOne(area: seq<byte>, end: nat, p: nat, out: Parsed) returns (stop: bool, next: nat, after: Parsed)
    requires p < end <= |area| && |out.sack| <= 4
    ensures stop ==> after == Fold(out, From(area[..end], p))
    ensures !stop ==> p < next <= end && Fold(after, From(area[..end], next)) == Fold(out, From(area[..end], p))
    ensures p <= next <= end && |after.sack| <= 4
  {
    hide *;
    var kind := area[p];
    ghost var s := area[..end];
    if kind == EOL {
      StopsHere(out, s, p);
      return true, p, out;
    }
    if kind == NOP {
      NextNop(out, s, p);
      return false, p + 1, out;
    }
    if p + 1 >= end {
      StopsHere(out, s, p);
      return true, p, out;
    }
    var len := area[p + 1];
    if len < 2 || p + len > end {
      StopsHere(out, s, p);
      return true, p, out;
    }
    var v := area[p + 2..p + len];
    NextTlvIn(out, area, end, p, len);
    after := Absorb(out, kind, v);
    return false, p + len, after;
  }

  /** The options from position p on. */
  function From(s: seq<byte>, p: nat): seq<Token>
    requires p <= |s|
  {
    Tokens(s[p..])
  }

  lemma SliceOfPrefix<T>(s: seq<T>, end: nat, i: nat, j: nat)
    requires i <= j <= end <= |s|
    ensures s[..end][i..j] == s[i..j]
  {
  }

  lemma StopsHere(out: Parsed, s: seq<byte>, p: nat)
    requires p <= |s| && (p == |s| || s[p] == EOL
                          || (s[p] != NOP && (p + 1 >= |s| || s[p + 1] < 2 || p + s[p + 1] > |s|)))
    ensures Fold(out, From(s, p)) == out
  {
    assert Stops(s[p..]);
  }

  lemma NextNop(out: Parsed, s: seq<byte>, p: nat)
    requires p < |s| && s[p] == NOP
    ensures Fold(out, From(s, p)) == Fold(out, From(s, p + 1))
  {
    assert s[p..][1..] == s[p + 1..];
    assert Tokens(s[p..]) == [Nop] + Tokens(s[p + 1..]);
    hide Tokens;
  }

  lemma NextTlv(out: Parsed, s: seq<byte>, p: nat, n: nat)
    requires p + 1 < |s| && s[p] != EOL && s[p] != NOP && n == s[p + 1] >= 2 && p + n <= |s|
    ensures Fold(out, From(s, p)) == Fold(Apply(out, Tlv(s[p], s[p + 2..p + n])), From(s, p + n))
  {
    assert s[p..][n..] == s[p + n..] && s[p..][2..n] == s[p + 2..p + n];
    assert Tokens(s[p..]) == [Tlv(s[p], s[p + 2..p + n])] + Tokens(s[p + n..]);
    hide Apply, Tokens;
  }

  lemma NextTlvIn(out: Parsed, area: seq<byte>, end: nat, p: nat, n: nat)
    requires p + 1 < end <= |area| && area[p] != EOL && area[p] != NOP && n == area[p + 1] >= 2 && p + n <= end
    ensures Fold(out, From(area[..end], p)) ==
              Fold(Apply(out, Tlv(area[p], area[p + 2..p + n])), From(area[..end], p + n))
  {
    hide *;
    SliceOfPrefix(area, end, p + 2, p + n);
    NextTlv(out, area[..end], p, n);
  }

  /** The switch over the option kind. */
  method Absorb(was: Parsed, kind: byte, v: seq<byte>) returns (out: Parsed)
    requires |was.sack| <= 4
    ensures out == Apply(was, Tlv(kind, v)) && |out.sack| <= 4
  {
    out := was;
    if kind == MSS {
      if |v| == 2 { out := out.(mss := (v[0] as int) * 0x100 + v[1], hasMss := true); }
    } else if kind == WINDOW_SCALE {
      if |v| == 1 { out := out.(wscale := if v[0] > 14 then 14 else v[0], hasWscale := true); }
    } else if kind == SACK_PERM {
      out := out.(hasSackPerm := true);
    } else if kind == TIMESTAMP {
      if |v| == 8 { out := out.(tsVal := Word(v[..4]), tsEcr := Word(v[4..]), hasTimestamps := true); }
    } else if kind == SACK {
      var sack := CopyBlocks(out.sack, v);
      out := out.(sack := sack);
    }
  }

  // ----------------------------------------------------------------- writers

  /** Groups of options are written whole, in order, until one does not fit. */
  function Fit(groups: seq<seq<Token>>, room: int): (ts: seq<Token>)
    requires Groups(groups)
    ensures AllLegal(ts)
    decreases |groups|
  {
    if groups == [] || |EncodeAll(groups[0])| > room then []
    else groups[0] + Fit(groups[1..], room - |EncodeAll(groups[0])|)
  }

  function PadLength(n: nat, size: nat): (k: nat)
    requires n <= size
  {
    Min((4 - n % 4) % 4, size - n)
  }

  function Nops(k: nat): (ts: seq<Token>)
    ensures AllLegal(ts) && |ts| == k
  {
    seq(k, _ => Nop)
  }

  lemma {:induction false} FitFits(groups: seq<seq<Token>>, room: nat)
    requires Groups(groups)
    ensures |EncodeAll(Fit(groups, room))| <= room
    decreases |groups|
  {
    if groups != [] && |EncodeAll(groups[0])| <= room {
      var left := room - |EncodeAll(groups[0])|;
      FitFits(groups[1..], left);
      EncodeConcat(groups[0], Fit(groups[1..], left));
    }
  }

  /** What a writer leaves in a buffer of `size` bytes: the groups that fit and padding. */
  function Written(groups: seq<seq<Token>>, size: nat): (ts: seq<Token>)
    requires Groups(groups)
    ensures AllLegal(ts)
  {
    FitFits(groups, size);
    var ts := Fit(groups, size);
    ts + Nops(PadLength(|EncodeAll(ts)|, size))
  }

  function MssToken(mss: u16): Token { Tlv(MSS, [mss / 0x100, mss % 0x100]) }
  function ScaleToken(wscale: byte): Token { Tlv(WINDOW_SCALE, [wscale]) }
  function TimeToken(tsVal: u32, tsEcr: u32): Token { Tlv(TIMESTAMP, Big(tsVal) + Big(tsEcr)) }
  function SackToken(blocks: seq<Block>): Token { Tlv(SACK, AllBlockBytes(blocks)) }

  predicate Groups(g: seq<seq<Token>>) { forall i :: 0 <= i < |g| ==> AllLegal(g[i]) }

  /** The groups of a SYN from the window scale, the timestamps, SACK-permitted and the MSS on. */
  function ScaleOn(wscale: byte): (g: seq<seq<Token>>)
    ensures Groups(g)
  {
    [[Nop, ScaleToken(wscale)]]
  }

  function TimeOn(wscale: byte, timestamps: bool, tsVal: u32, tsEcr: u32): (g: seq<seq<Token>>)
    ensures Groups(g)
  {
    (if timestamps then [[TimeToken(tsVal, tsEcr)]] else []) + ScaleOn(wscale)
  }

  function PermOn(wscale: byte, sackPerm: bool, timestamps: bool, tsVal: u32, tsEcr: u32): (g: seq<seq<Token>>)
    ensures Groups(g)
  {
    (if sackPerm then [[Tlv(SACK_PERM, [])]] else []) + TimeOn(wscale, timestamps, tsVal, tsEcr)
  }

  function SynGroups(mss: u16, wscale: byte, sackPerm: bool, timestamps: bool, tsVal: u32, tsEcr: u32): (g: seq<seq<Token>>)
    ensures Groups(g)
  {
    [[MssToken(mss)]] + PermOn(wscale, sackPerm, timestamps, tsVal, tsEcr)
  }

  /** At most four blocks are considered. */
  function Clipped(blocks: seq<Block>): (b: seq<Block>)
    ensures |b| == Min(|blocks|, 4)
  {
    blocks[..Min(|blocks|, 4)]
  }

  function SackOn(blocks: seq<Block>): (g: seq<seq<Token>>)
    ensures Groups(g)
  {
    if blocks != [] then [[Nop, Nop, SackToken(Clipped(blocks))]] else []
  }

  function DataGroups(timestamps: bool, tsVal: u32, tsEcr: u32, blocks: seq<Block>): (g: seq<seq<Token>>)
    ensures Groups(g)
  {
    (if timestamps then [[Nop, Nop, TimeToken(tsVal, tsEcr)]] else []) + SackOn(blocks)
  }

  /** A buffer with the bytes from p on overwritten. */
  function Splice(s: seq<byte>, p: nat, b: seq<byte>): (r: seq<byte>)
    requires p + |b| <= |s|
    ensures |r| == |s|
  {
    s[..p] + b + s[p + |b|..]
  }

  lemma SpliceTwice(s: seq<byte>, p: nat, a: seq<byte>, b: seq<byte>)
    requires p + |a| + |b| <= |s|
    ensures Splice(Splice(s, p, a), p + |a|, b) == Splice(s, p, a + b)
  {
    var t := Splice(s, p, a);
    assert t[..p + |a|] == s[..p] + a;
    assert t[p + |a| + |b|..] == s[p + |a| + |b|..];
  }

  /** The buffer holds the encoding of `ts` up to position p and is otherwise as it was. */
  ghost predicate Holds(now: seq<byte>, was: seq<byte>, ts: seq<Token>, p: nat) {
    AllLegal(ts) && p == |EncodeAll(ts)| <= |was| && now == Splice(was, 0, EncodeAll(ts))
  }

  /** Overwriting the bytes at p with the encoding of more options. */
  lemma HoldsMore(now: seq<byte>, was: seq<byte>, ts: seq<Token>, p: nat, more: seq<Token>)
    requires Holds(now, was, ts, p) && AllLegal(more) && p + |EncodeAll(more)| <= |was|
    ensures Holds(Splice(now, p, EncodeAll(more)), was, ts + more, p + |EncodeAll(more)|)
  {
    hide EncodeAll, Splice;
    EncodeConcat(ts, more);
    SpliceTwice(was, 0, EncodeAll(ts), EncodeAll(more));
  }

  lemma EncodeOne(t: Token)
    requires Legal(t)
    ensures EncodeAll([t]) == Encode(t)
  {
  }

  lemma EncodeAfterNops(t: Token)
    requires Legal(t)
    ensures EncodeAll([Nop, Nop, t]) == [NOP, NOP] + Encode(t)
    ensures EncodeAll([Nop, t]) == [NOP] + Encode(t)
  {
    EncodeOne(t);
    assert [Nop, t][1..] == [t] && [Nop, Nop, t][1..] == [Nop, t];
  }

  method PutPair(buf: array<byte>, p: nat, a: byte, b: byte)
    requires p + 2 <= buf.Length
    modifies buf
    ensures buf[..] == Splice(old(buf[..]), p, [a, b])
  {
    buf[p] := a;
    buf[p + 1] := b;
  }

  /** Four bytes, most significant first. */
  method PutBig(buf: array<byte>, p: nat, x: u32)
    requires p + 4 <= buf.Length
    modifies buf
    ensures buf[..] == Splice(old(buf[..]), p, Big(x))
  {
    PutPair(buf, p, x / 0x100_0000, x / 0x1_0000 % 0x100);
    PutPair(buf, p + 2, x / 0x100 % 0x100, x % 0x100);
    SpliceTwice(old(buf[..]), p, [x / 0x100_0000, x / 0x1_0000 % 0x100], [x / 0x100 % 0x100, x % 0x100]);
    hide Splice;
  }

  method PutMss(buf: array<byte>, p: nat, mss: u16)
    requires p + 4 <= buf.Length
    modifies buf
    ensures buf[..] == Splice(old(buf[..]), p, Encode(MssToken(mss)))
  {
    PutPair(buf, p, MSS, 4);
    PutPair(buf, p + 2, mss / 0x100, mss % 0x100);
    SpliceTwice(old(buf[..]), p, [MSS, 4], [mss / 0x100, mss % 0x100]);
    hide Splice;
  }

  method PutScale(buf: array<byte>, p: nat, wscale: byte)
    requires p + 4 <= buf.Length
    modifies buf
    ensures buf[..] == Splice(old(buf[..]), p, [NOP] + Encode(ScaleToken(wscale)))
  {
    PutPair(buf, p, NOP, WINDOW_SCALE);
    PutPair(buf, p + 2, 3, wscale);
    SpliceTwice(old(buf[..]), p, [NOP, WINDOW_SCALE], [3, wscale]);
    hide Splice;
    assert [NOP, WINDOW_SCALE] + [3, wscale] == [NOP] + Encode(ScaleToken(wscale));
  }

  method PutTimestamp(buf: array<byte>, p: nat, tsVal: u32, tsEcr: u32)
    requires p + 10 <= buf.Length
    modifies buf
    ensures buf[..] == Splice(old(buf[..]), p, Encode(TimeToken(tsVal, tsEcr)))
  {
    hide Splice, Big;
    PutPair(buf, p, TIMESTAMP, 10);
    PutBig(buf, p + 2, tsVal);
    SpliceTwice(old(buf[..]), p, [TIMESTAMP, 10], Big(tsVal));
    PutBig(buf, p + 6, tsEcr);
    SpliceTwice(old(buf[..]), p, [TIMESTAMP, 10] + Big(tsVal), Big(tsEcr));
    Assoc([TIMESTAMP, 10], Big(tsVal), Big(tsEcr));
  }

  method PutBlock(buf: array<byte>, p: nat, b: Block)
    requires p + 8 <= buf.Length
    modifies buf
    ensures buf[..] == Splice(old(buf[..]), p, BlockBytes(b))
  {
    hide Splice, Big;
    PutBig(buf, p, b.left);
    PutBig(buf, p + 4, b.right);
    SpliceTwice(old(buf[..]), p, Big(b.left), Big(b.right));
  }

  lemma OneMoreBlock(s: seq<byte>, p: nat, head: seq<byte>, blocks: seq<Block>, i: nat, n: nat)
    requires n == i + 1 <= |blocks| && p + |head| + 8 * n <= |s|
    ensures Splice(Splice(s, p, head + AllBlockBytes(blocks[..i])), p + |head| + 8 * i, BlockBytes(blocks[i]))
            == Splice(s, p, head + AllBlockBytes(blocks[..n]))
  {
    assert blocks[..n][..i] == blocks[..i];
    hide Splice, BlockBytes;
    SpliceTwice(s, p, head + AllBlockBytes(blocks[..i]), BlockBytes(blocks[i]));
    Assoc(head, AllBlockBytes(blocks[..i]), BlockBytes(blocks[i]));
  }

  /** A SACK option: kind, length and the loop over its blocks. */
  method PutSack(buf: array<byte>, p: nat, blocks: seq<Block>)
    requires |blocks| <= 4 && p + 2 + 8 * |blocks| <= buf.Length
    modifies buf
    ensures buf[..] == Splice(old(buf[..]), p, Encode(SackToken(blocks)))
  {
    ghost var head: seq<byte> := [SACK, 2 + 8 * |blocks|];
    PutPair(buf, p, SACK, 2 + 8 * |blocks|);
    SackStartEnd(blocks);
    hide *;
    var i := 0;
    while i < |blocks|
      invariant 0 <= i <= |blocks|
      invariant buf[..] == Splice(old(buf[..]), p, head + AllBlockBytes(blocks[..i]))
    {
      PutNth(buf, p, blocks, i, old(buf[..]), head);
      i := i + 1;
    }
    assert blocks[..i] == blocks;
  }

  /** One block behind the head of its option and the blocks before it. */
  method PutNth(buf: array<byte>, p: nat, blocks: seq<Block>, i: nat, ghost was: seq<byte>, ghost head: seq<byte>)
    requires i < |blocks| && |head| == 2 && p + 2 + 8 * |blocks| <= buf.Length == |was|
    requires buf[..] == Splice(was, p, head + AllBlockBytes(blocks[..i]))
    modifies buf
    ensures buf[..] == Splice(was, p, head + AllBlockBytes(blocks[..i + 1]))
  {
    hide *;
    PutBlock(buf, p + 2 + 8 * i, blocks[i]);
    OneMoreBlock(was, p, head, blocks, i, i + 1);
  }

  lemma SackStartEnd(blocks: seq<Block>)
    requires |blocks| <= 4
    ensures var head: seq<byte> := [SACK, 2 + 8 * |blocks|];
            && head + AllBlockBytes(blocks[..0]) == head
            && head + AllBlockBytes(blocks) == Encode(SackToken(blocks))
  {
    assert blocks[..0] == [];
  }

  /** The common tail: no-operations up to a multiple of four or the end of the buffer. */
  method Pad(buf: array<byte>, p: nat, ghost was: seq<byte>, ghost ts: seq<Token>) returns (n: nat)
    requires p <= buf.Length == |was| && Holds(buf[..], was, ts, p)
    modifies buf
    ensures n == p + PadLength(p, buf.Length)
    ensures Holds(buf[..], was, ts + Nops(PadLength(p, buf.Length)), n)
  {
    n := p;
    assert ts + Nops(0) == ts;
    hide *;
    while n % 4 != 0 && n < buf.Length
      invariant p <= n <= buf.Length && n - p <= PadLength(p, buf.Length)
      invariant Holds(buf[..], was, ts + Nops(n - p), n)
      decreases buf.Length - n
    {
      ghost var now := buf[..];
      PutNop(buf, n);
      OneMoreNop(now, was, ts, n - p, n);
      PadMore(p, n, buf.Length);
      n := n + 1;
    }
    PadMore(p, n, buf.Length);
  }

  method PutNop(buf: array<byte>, p: nat)
    requires p < buf.Length
    modifies buf
    ensures buf[..] == Splice(old(buf[..]), p, [NOP])
  {
    buf[p] := NOP;
  }

  /** Padding goes on exactly while the position is unaligned and there is room. */
  lemma PadMore(p: nat, n: nat, size: nat)
    requires p <= n <= size && n - p <= PadLength(p, size)
    ensures n - p < PadLength(p, size) <==> n % 4 != 0 && n < size
  {
  }

  lemma OneMoreNop(now: seq<byte>, was: seq<byte>, ts: seq<Token>, k: nat, n: nat)
    requires Holds(now, was, ts + Nops(k), n) && n < |was|
    ensures |now| == |was| && Holds(Splice(now, n, [NOP]), was, ts + Nops(k + 1), n + 1)
  {
    EncodeOne(Nop);
    HoldsMore(now, was, ts + Nops(k), n, [Nop]);
    assert ts + Nops(k) + [Nop] == ts + Nops(k + 1);
    hide EncodeAll;
  }

  /** The buffer after the groups written so far, and the groups still to be considered. */
  ghost predicate Progress(now: seq<byte>, was: seq<byte>, all: seq<seq<Token>>, ts: seq<Token>, p: nat, left: seq<seq<Token>>)
    requires Groups(all) && Groups(left)
  {
    && p <= |was| == |now| && Holds(now, was, ts, p)
    && Fit(all, |was|) == ts + Fit(left, |was| - p)
  }

  lemma FitCons(group: seq<Token>, left: seq<seq<Token>>, room: int)
    requires AllLegal(group) && Groups(left)
    ensures Groups([group] + left)
    ensures Fit([group] + left, room) ==
              if |EncodeAll(group)| > room then [] else group + Fit(left, room - |EncodeAll(group)|)
  {
    var groups := [group] + left;
    assert groups[0] == group && groups[1..] == left;
    hide AllLegal, EncodeAll;
  }

  /** The next group fits and its bytes have been written at p. */
  lemma GroupStep(now: seq<byte>, was: seq<byte>, all: seq<seq<Token>>, ts: seq<Token>, p: nat,
                  group: seq<Token>, left: seq<seq<Token>>)
    requires Groups(all) && AllLegal(group) && Groups(left) && Groups([group] + left)
    requires Progress(now, was, all, ts, p, [group] + left) && p + |EncodeAll(group)| <= |was|
    ensures Progress(Splice(now, p, EncodeAll(group)), was, all, ts + group, p + |EncodeAll(group)|, left)
  {
    hide EncodeAll, Splice, Holds, Fit, Groups;
    FitCons(group, left, |was| - p);
    HoldsMore(now, was, ts, p, group);
    Assoc(ts, group, Fit(left, |was| - p - |EncodeAll(group)|));
  }

  /** The next group does not fit, or there is none: nothing more is written but padding. */
  lemma WritingEnds(now: seq<byte>, was: seq<byte>, all: seq<seq<Token>>, ts: seq<Token>, p: nat, left: seq<seq<Token>>)
    requires Groups(all) && Groups(left)
    requires Progress(now, was, all, ts, p, left) && (left == [] || p + |EncodeAll(left[0])| > |was|)
    ensures Written(all, |was|) == ts + Nops(PadLength(p, |was|))
  {
    hide EncodeAll, Splice, PadLength, Nops;
    assert ts + [] == ts;
  }

  lemma GroupLengths(mss: u16, wscale: byte, tsVal: u32, tsEcr: u32, blocks: seq<Block>)
    requires |blocks| <= 4
    ensures EncodeAll([MssToken(mss)]) == Encode(MssToken(mss)) && |Encode(MssToken(mss))| == 4
    ensures EncodeAll([Tlv(SACK_PERM, [])]) == [SACK_PERM, 2]
    ensures EncodeAll([TimeToken(tsVal, tsEcr)]) == Encode(TimeToken(tsVal, tsEcr)) && |Encode(TimeToken(tsVal, tsEcr))| == 10
    ensures EncodeAll([Nop, ScaleToken(wscale)]) == [NOP] + Encode(ScaleToken(wscale)) && |Encode(ScaleToken(wscale))| == 3
    ensures EncodeAll([Nop, Nop, TimeToken(tsVal, tsEcr)]) == [NOP, NOP] + Encode(TimeToken(tsVal, tsEcr))
    ensures EncodeAll([Nop, Nop, SackToken(blocks)]) == [NOP, NOP] + Encode(SackToken(blocks))
    ensures |Encode(SackToken(blocks))| == 2 + 8 * |blocks|
  {
    EncodeOne(MssToken(mss));
    EncodeOne(Tlv(SACK_PERM, []));
    EncodeOne(TimeToken(tsVal, tsEcr));
    EncodeAfterNops(ScaleToken(wscale));
    EncodeAfterNops(TimeToken(tsVal, tsEcr));
    EncodeAfterNops(SackToken(blocks));
    hide EncodeAll;
  }

  lemma SynParts(mss: u16, wscale: byte, sackPerm: bool, timestamps: bool, tsVal: u32, tsEcr: u32, was: seq<byte>)
    ensures var time, perm := TimeOn(wscale, timestamps, tsVal, tsEcr), PermOn(wscale, sackPerm, timestamps, tsVal, tsEcr);
            var all := SynGroups(mss, wscale, sackPerm, timestamps, tsVal, tsEcr);
            && all == [[MssToken(mss)]] + perm
            && perm == (if sackPerm then [[Tlv(SACK_PERM, [])]] + time else time)
            && time == (if timestamps then [[TimeToken(tsVal, tsEcr)]] + ScaleOn(wscale) else ScaleOn(wscale))
            && ScaleOn(wscale) == [[Nop, ScaleToken(wscale)]] + [] && Groups([])
            && AllLegal([MssToken(mss)]) && AllLegal([Tlv(SACK_PERM, [])]) && AllLegal([TimeToken(tsVal, tsEcr)])
            && AllLegal([Nop, ScaleToken(wscale)])
            && Progress(was, was, all, [], 0, all)
  {
    assert [] + Fit(SynGroups(mss, wscale, sackPerm, timestamps, tsVal, tsEcr), |was|)
           == Fit(SynGroups(mss, wscale, sackPerm, timestamps, tsVal, tsEcr), |was|);
  }

  method AddMss(buf: array<byte>, p: nat, mss: u16, ghost was: seq<byte>, ghost all: seq<seq<Token>>,
                ghost ts: seq<Token>, ghost left: seq<seq<Token>>)
    requires AllLegal([MssToken(mss)]) && Groups(all) && Groups(left) && Groups([[MssToken(mss)]] + left)
    requires Progress(buf[..], was, all, ts, p, [[MssToken(mss)]] + left) && p + 4 <= buf.Length == |was|
    modifies buf
    ensures Progress(buf[..], was, all, ts + [MssToken(mss)], p + 4, left)
  {
    hide *;
    GroupLengths(mss, 0, 0, 0, []);
    GroupStep(buf[..], was, all, ts, p, [MssToken(mss)], left);
    PutMss(buf, p, mss);
  }

  method AddPermitted(buf: array<byte>, p: nat, ghost was: seq<byte>, ghost all: seq<seq<Token>>,
                      ghost ts: seq<Token>, ghost left: seq<seq<Token>>)
    requires AllLegal([Tlv(SACK_PERM, [])]) && Groups(all) && Groups(left) && Groups([[Tlv(SACK_PERM, [])]] + left)
    requires Progress(buf[..], was, all, ts, p, [[Tlv(SACK_PERM, [])]] + left) && p + 2 <= buf.Length == |was|
    modifies buf
    ensures Progress(buf[..], was, all, ts + [Tlv(SACK_PERM, [])], p + 2, left)
  {
    hide *;
    GroupLengths(0, 0, 0, 0, []);
    GroupStep(buf[..], was, all, ts, p, [Tlv(SACK_PERM, [])], left);
    PutPair(buf, p, SACK_PERM, 2);
  }

  method AddTimestamp(buf: array<byte>, p: nat, tsVal: u32, tsEcr: u32, ghost was: seq<byte>, ghost all: seq<seq<Token>>,
                      ghost ts: seq<Token>, ghost left: seq<seq<Token>>)
    requires AllLegal([TimeToken(tsVal, tsEcr)]) && Groups(all) && Groups(left) && Groups([[TimeToken(tsVal, tsEcr)]] + left)
    requires Progress(buf[..], was, all, ts, p, [[TimeToken(tsVal, tsEcr)]] + left) && p + 10 <= buf.Length == |was|
    modifies buf
    ensures Progress(buf[..], was, all, ts + [TimeToken(tsVal, tsEcr)], p + 10, left)
  {
    hide *;
    GroupLengths(0, 0, tsVal, tsEcr, []);
    GroupStep(buf[..], was, all, ts, p, [TimeToken(tsVal, tsEcr)], left);
    PutTimestamp(buf, p, tsVal, tsEcr);
  }

  method AddScale(buf: array<byte>, p: nat, wscale: byte, ghost was: seq<byte>, ghost all: seq<seq<Token>>,
                  ghost ts: seq<Token>, ghost left: seq<seq<Token>>)
    requires AllLegal([Nop, ScaleToken(wscale)]) && Groups(all) && Groups(left) && Groups([[Nop, ScaleToken(wscale)]] + left)
    requires Progress(buf[..], was, all, ts, p, [[Nop, ScaleToken(wscale)]] + left) && p + 4 <= buf.Length == |was|
    modifies buf
    ensures Progress(buf[..], was, all, ts + [Nop, ScaleToken(wscale)], p + 4, left)
  {
    hide *;
    GroupLengths(0, wscale, 0, 0, []);
    GroupStep(buf[..], was, all, ts, p, [Nop, ScaleToken(wscale)], left);
    PutScale(buf, p, wscale);
  }

  method AddPaddedTime(buf: array<byte>, p: nat, tsVal: u32, tsEcr: u32, ghost was: seq<byte>, ghost all: seq<seq<Token>>,
                       ghost ts: seq<Token>, ghost left: seq<seq<Token>>)
    requires AllLegal([Nop, Nop, TimeToken(tsVal, tsEcr)])
    requires Groups(all) && Groups(left) && Groups([[Nop, Nop, TimeToken(tsVal, tsEcr)]] + left)
    requires Progress(buf[..], was, all, ts, p, [[Nop, Nop, TimeToken(tsVal, tsEcr)]] + left) && p + 12 <= buf.Length == |was|
    modifies buf
    ensures Progress(buf[..], was, all, ts + [Nop, Nop, TimeToken(tsVal, tsEcr)], p + 12, left)
  {
    assert Legal(TimeToken(tsVal, tsEcr));
    hide *;
    GroupLengths(0, 0, tsVal, tsEcr, []);
    GroupStep(buf[..], was, all, ts, p, [Nop, Nop, TimeToken(tsVal, tsEcr)], left);
    ghost var start := buf[..];
    PutPair(buf, p, NOP, NOP);
    PutTimestamp(buf, p + 2, tsVal, tsEcr);
    SpliceTwice(start, p, [NOP, NOP], Encode(TimeToken(tsVal, tsEcr)));
  }

  method PutPaddedSack(buf: array<byte>, p: nat, blocks: seq<Block>)
    requires |blocks| <= 4 && p + 4 + 8 * |blocks| <= buf.Length
    modifies buf
    ensures buf[..] == Splice(old(buf[..]), p, [NOP, NOP] + Encode(SackToken(blocks)))
  {
    assert Legal(SackToken(blocks)) && |Encode(SackToken(blocks))| == 2 + 8 * |blocks|;
    hide *;
    PutPair(buf, p, NOP, NOP);
    PutSack(buf, p + 2, blocks);
    SpliceTwice(old(buf[..]), p, [NOP, NOP], Encode(SackToken(blocks)));
  }

  method AddSack(buf: array<byte>, p: nat, blocks: seq<Block>, ghost was: seq<byte>, ghost all: seq<seq<Token>>,
                 ghost ts: seq<Token>, ghost left: seq<seq<Token>>)
    requires |blocks| <= 4 && AllLegal([Nop, Nop, SackToken(blocks)])
    requires Groups(all) && Groups(left) && Groups([[Nop, Nop, SackToken(blocks)]] + left)
    requires Progress(buf[..], was, all, ts, p, [[Nop, Nop, SackToken(blocks)]] + left)
    requires p + 4 + 8 * |blocks| <= buf.Length == |was|
    modifies buf
    ensures Progress(buf[..], was, all, ts + [Nop, Nop, SackToken(blocks)], p + 4 + 8 * |blocks|, left)
  {
    hide *;
    GroupLengths(0, 0, 0, 0, blocks);
    GroupStep(buf[..], was, all, ts, p, [Nop, Nop, SackToken(blocks)], left);
    PutPaddedSack(buf, p, blocks);
  }

  /** tcp_options_write_syn: each NEED that fails jumps to the padding. */
  method WriteSyn(buf: array<byte>, mss: u16, wscale: byte, sackPerm: bool, timestamps: bool, tsVal: u32, tsEcr: u32)
    returns (n: nat)
    modifies buf
    ensures Holds(buf[..], old(buf[..]),
                  Written(SynGroups(mss, wscale, sackPerm, timestamps, tsVal, tsEcr), buf.Length), n)
  {
    ghost var was := buf[..];
    ghost var all := SynGroups(mss, wscale, sackPerm, timestamps, tsVal, tsEcr);
    ghost var left := all;
    ghost var ts: seq<Token> := [];
    var p := 0;
    hide *;
    SynParts(mss, wscale, sackPerm, timestamps, tsVal, tsEcr, was);
    GroupLengths(mss, wscale, tsVal, tsEcr, []);
    label done: {
      if buf.Length - p < 4 { break done; }
      left := PermOn(wscale, sackPerm, timestamps, tsVal, tsEcr);
      AddMss(buf, p, mss, was, all, ts, left);
      p, ts := p + 4, ts + [MssToken(mss)];
      if sackPerm {
        if buf.Length - p < 2 { break done; }
        left := TimeOn(wscale, timestamps, tsVal, tsEcr);
        AddPermitted(buf, p, was, all, ts, left);
        p, ts := p + 2, ts + [Tlv(SACK_PERM, [])];
      }
      p, ts, left := AddTimeAndScale(buf, p, wscale, timestamps, tsVal, tsEcr, was, all, ts);
    }
    n := Finish(buf, p, was, all, ts, left);
  }

  /** The second half of the SYN options. */
  method AddTimeAndScale(buf: array<byte>, start: nat, wscale: byte, timestamps: bool, tsVal: u32, tsEcr: u32,
                         ghost was: seq<byte>, ghost all: seq<seq<Token>>, ghost before: seq<Token>)
    returns (p: nat, ghost ts: seq<Token>, ghost left: seq<seq<Token>>)
    requires Groups(all) && start <= buf.Length == |was|
    requires Progress(buf[..], was, all, before, start, TimeOn(wscale, timestamps, tsVal, tsEcr))
    modifies buf
    ensures p <= buf.Length && Groups(left) && Progress(buf[..], was, all, ts, p, left)
    ensures left == [] || (AllLegal(left[0]) && p + |EncodeAll(left[0])| > |was|)
  {
    hide *;
    SynParts(0, wscale, false, timestamps, tsVal, tsEcr, []);
    GroupLengths(0, wscale, tsVal, tsEcr, []);
    p, ts, left := start, before, TimeOn(wscale, timestamps, tsVal, tsEcr);
    label done: {
      if timestamps {
        if buf.Length - p < 10 { break done; }
        left := ScaleOn(wscale);
        AddTimestamp(buf, p, tsVal, tsEcr, was, all, ts, left);
        p, ts := p + 10, ts + [TimeToken(tsVal, tsEcr)];
      }
      if buf.Length - p < 4 { break done; }
      left := [];
      AddScale(buf, p, wscale, was, all, ts, left);
      p, ts := p + 4, ts + [Nop, ScaleToken(wscale)];
    }
  }

  method Finish(buf: array<byte>, p: nat, ghost was: seq<byte>, ghost all: seq<seq<Token>>,
                ghost ts: seq<Token>, ghost left: seq<seq<Token>>) returns (n: nat)
    requires Groups(all) && Groups(left) && buf.Length == |was|
    requires Progress(buf[..], was, all, ts, p, left) && (left == [] || p + |EncodeAll(left[0])| > |was|)
    modifies buf
    ensures Holds(buf[..], was, Written(all, buf.Length), n)
  {
    WritingEnds(buf[..], was, all, ts, p, left);
    assert Holds(buf[..], was, ts, p);
    hide *;
    n := Pad(buf, p, was, ts);
  }

  lemma DataParts(timestamps: bool, tsVal: u32, tsEcr: u32, blocks: seq<Block>, was: seq<byte>)
    ensures var all := DataGroups(timestamps, tsVal, tsEcr, blocks);
            && all == (if timestamps then [[Nop, Nop, TimeToken(tsVal, tsEcr)]] + SackOn(blocks) else SackOn(blocks))
            && SackOn(blocks) == (if blocks != [] then [[Nop, Nop, SackToken(Clipped(blocks))]] + [] else []) && Groups([])
            && AllLegal([Nop, Nop, TimeToken(tsVal, tsEcr)]) && AllLegal([Nop, Nop, SackToken(Clipped(blocks))])
            && Progress(was, was, all, [], 0, all)
  {
    DataLegal(tsVal, tsEcr, blocks);
    assert AllLegal([]);
    hide Fit, Big, AllBlockBytes, AllLegal, TimeToken, SackToken, Clipped;
    var all := DataGroups(timestamps, tsVal, tsEcr, blocks);
    assert [] + Fit(all, |was|) == Fit(all, |was|);
  }

  lemma DataLegal(tsVal: u32, tsEcr: u32, blocks: seq<Block>)
    ensures AllLegal([Nop, Nop, TimeToken(tsVal, tsEcr)]) && AllLegal([Nop, Nop, SackToken(Clipped(blocks))])
  {
    hide Big, AllBlockBytes;
  }

  /** tcp_options_write_data */
  method WriteData(buf: array<byte>, timestamps: bool, tsVal: u32, tsEcr: u32, blocks: seq<Block>) returns (n: nat)
    modifies buf
    ensures Holds(buf[..], old(buf[..]), Written(DataGroups(timestamps, tsVal, tsEcr, blocks), buf.Length), n)
  {
    ghost var was := buf[..];
    ghost var all := DataGroups(timestamps, tsVal, tsEcr, blocks);
    ghost var left := all;
    ghost var ts: seq<Token> := [];
    var p := 0;
    var clipped := Clipped(blocks);
    assert |clipped| <= 4;
    hide *;
    DataParts(timestamps, tsVal, tsEcr, blocks, was);
    GroupLengths(0, 0, tsVal, tsEcr, clipped);
    label done: {
      if timestamps {
        if buf.Length - p < 12 { break done; }
        left := SackOn(blocks);
        AddPaddedTime(buf, p, tsVal, tsEcr, was, all, ts, left);
        p, ts := p + 12, ts + [Nop, Nop, TimeToken(tsVal, tsEcr)];
      }
      if blocks != [] {
        if buf.Length - p < 4 + 8 * |clipped| { break done; }
        left := [];
        AddSack(buf, p, clipped, was, all, ts, left);
        p, ts := p + 4 + 8 * |clipped|, ts + [Nop, Nop, SackToken(clipped)];
      }
    }
    n := Finish(buf, p, was, all, ts, left);
  }

  // -------------------------------------------------------------- round trip

  lemma {:induction false} FoldNops(out: Parsed, k: nat)
    ensures Fold(out, Nops(k)) == out
  {
    if k > 0 {
      assert Nops(k)[1..] == Nops(k - 1);
      FoldNops(out, k - 1);
    }
  }

  /** What the parser makes of a written buffer: the groups that fit, and nothing else. */
  lemma ParseWritten(groups: seq<seq<Token>>, size: nat)
    requires Groups(groups)
    ensures Fold(NONE, Tokens(EncodeAll(Written(groups, size)))) == Fold(NONE, Fit(groups, size))
  {
    var all := Written(groups, size);
    FitFits(groups, size);
    var fit := Fit(groups, size);
    var pad := PadLength(|EncodeAll(fit)|, size);
    assert all == fit + Nops(pad);
    assert EncodeAll(all) + [] == EncodeAll(all) && all + Tokens([]) == all;
    hide *;
    TokensOfEncoded(all, []);
    FoldConcat(NONE, fit, Nops(pad));
    FoldNops(Fold(NONE, fit), pad);
  }

  lemma {:induction false} FoldFit(out: Parsed, group: seq<Token>, left: seq<seq<Token>>, room: int)
    requires AllLegal(group) && Groups(left)
    ensures Groups([group] + left)
    ensures Fold(out, Fit([group] + left, room)) ==
              if |EncodeAll(group)| > room then out else Fold(Fold(out, group), Fit(left, room - |EncodeAll(group)|))
  {
    FitCons(group, left, room);
    if |EncodeAll(group)| <= room { FoldConcat(out, group, Fit(left, room - |EncodeAll(group)|)); }
    hide EncodeAll, AllLegal, Groups, Fit, Apply;
  }

  lemma FoldOne(out: Parsed, t: Token)
    ensures Fold(out, [t]) == Apply(out, t)
    ensures Fold(out, [Nop, t]) == Apply(out, t)
    ensures Fold(out, [Nop, Nop, t]) == Apply(out, t)
  {
    assert [Nop, t][1..] == [t] && [Nop, Nop, t][1..] == [Nop, t] && [t][1..] == [];
  }

  lemma ApplyMss(out: Parsed, mss: u16)
    ensures Apply(out, MssToken(mss)) == out.(hasMss := true, mss := mss)
  {
  }

  lemma ApplyTime(out: Parsed, tsVal: u32, tsEcr: u32)
    ensures Apply(out, TimeToken(tsVal, tsEcr)) == out.(hasTimestamps := true, tsVal := tsVal, tsEcr := tsEcr)
  {
    WordBig(tsVal);
    WordBig(tsEcr);
    var v := Big(tsVal) + Big(tsEcr);
    assert v[..4] == Big(tsVal) && v[4..] == Big(tsEcr);
    hide Word, Big;
  }

  lemma ApplySack(out: Parsed, blocks: seq<Block>)
    requires out.sack == [] && |blocks| <= 4
    ensures Apply(out, SackToken(blocks)) == out.(sack := blocks)
  {
    forall i | 0 <= i < |blocks| ensures BlockAt(AllBlockBytes(blocks), i) == blocks[i] { BlockAtOf(blocks, i); }
    assert AddBlocks([], AllBlockBytes(blocks)) == blocks by { hide BlockAt, AllBlockBytes; }
    hide AddBlocks;
  }

  /** Bytes a full set of SYN options takes. */
  function SynLength(sackPerm: bool, timestamps: bool): nat {
    8 + (if sackPerm then 2 else 0) + (if timestamps then 10 else 0)
  }

  /**
   * SYN round trip: parsing what tcp_options_write_syn wrote recovers the MSS,
   * the scale (at most 14, section 2.3 of RFC 7323), SACK-permitted and the
   * timestamps exactly when the buffer has room for all of them; 20 bytes
   * always suffice.
   */
  lemma SynRoundTrip(size: nat, mss: u16, wscale: byte, sackPerm: bool, timestamps: bool, tsVal: u32, tsEcr: u32)
    ensures var read := Fold(NONE, Tokens(EncodeAll(Written(SynGroups(mss, wscale, sackPerm, timestamps, tsVal, tsEcr), size))));
            read == Parsed(true, mss, true, Min(wscale, 14), sackPerm, timestamps,
                           if timestamps then tsVal else 0, if timestamps then tsEcr else 0, [])
            <==> size >= SynLength(sackPerm, timestamps)
  {
    hide *;
    ParseWritten(SynGroups(mss, wscale, sackPerm, timestamps, tsVal, tsEcr), size);
    MssStage(size, mss, wscale, sackPerm, timestamps, tsVal, tsEcr);
    AllStages(size, mss, wscale, sackPerm, timestamps, tsVal, tsEcr);
  }

  /** What the remaining groups of a SYN add to the record, given the room left. */
  function AfterScale(out: Parsed, room: int, wscale: byte): Parsed {
    if room < 4 then out else out.(hasWscale := true, wscale := Min(wscale, 14))
  }

  function AfterTime(out: Parsed, room: int, wscale: byte, timestamps: bool, tsVal: u32, tsEcr: u32): Parsed {
    if !timestamps then AfterScale(out, room, wscale)
    else if room < 10 then out
    else AfterScale(out.(hasTimestamps := true, tsVal := tsVal, tsEcr := tsEcr), room - 10, wscale)
  }

  function AfterPerm(out: Parsed, room: int, wscale: byte, sackPerm: bool, timestamps: bool, tsVal: u32, tsEcr: u32): Parsed {
    if !sackPerm then AfterTime(out, room, wscale, timestamps, tsVal, tsEcr)
    else if room < 2 then out
    else AfterTime(out.(hasSackPerm := true), room - 2, wscale, timestamps, tsVal, tsEcr)
  }

  lemma ScaleStage(out: Parsed, room: int, wscale: byte)
    ensures Fold(out, Fit(ScaleOn(wscale), room)) == AfterScale(out, room, wscale)
  {
    SynParts(0, wscale, false, false, 0, 0, []);
    GroupLengths(0, wscale, 0, 0, []);
    FoldFit(out, [Nop, ScaleToken(wscale)], [], room);
    FoldOne(out, ScaleToken(wscale));
    hide EncodeAll, Progress, SynGroups, PermOn, TimeOn;
  }

  lemma TimeStage(out: Parsed, room: int, wscale: byte, timestamps: bool, tsVal: u32, tsEcr: u32)
    ensures Fold(out, Fit(TimeOn(wscale, timestamps, tsVal, tsEcr), room))
            == AfterTime(out, room, wscale, timestamps, tsVal, tsEcr)
  {
    hide Fold, Fit, EncodeAll, Progress, ScaleOn, SynGroups, PermOn, TimeOn, AfterScale, Encode, Apply;
    SynParts(0, wscale, false, timestamps, tsVal, tsEcr, []);
    ScaleStage(out, room, wscale);
    if timestamps {
      GroupLengths(0, 0, tsVal, tsEcr, []);
      FoldFit(out, [TimeToken(tsVal, tsEcr)], ScaleOn(wscale), room);
      FoldOne(out, TimeToken(tsVal, tsEcr));
      ApplyTime(out, tsVal, tsEcr);
      ScaleStage(out.(hasTimestamps := true, tsVal := tsVal, tsEcr := tsEcr), room - 10, wscale);
    }
  }

  lemma PermStage(out: Parsed, room: int, wscale: byte, sackPerm: bool, timestamps: bool, tsVal: u32, tsEcr: u32)
    ensures Fold(out, Fit(PermOn(wscale, sackPerm, timestamps, tsVal, tsEcr), room))
            == AfterPerm(out, room, wscale, sackPerm, timestamps, tsVal, tsEcr)
  {
    assert Apply(out, Tlv(SACK_PERM, [])) == out.(hasSackPerm := true);
    hide Fold, Fit, EncodeAll, Progress, ScaleOn, SynGroups, PermOn, TimeOn, AfterScale, AfterTime, Encode, Apply;
    SynParts(0, wscale, sackPerm, timestamps, tsVal, tsEcr, []);
    TimeStage(out, room, wscale, timestamps, tsVal, tsEcr);
    if sackPerm {
      GroupLengths(0, 0, tsVal, tsEcr, []);
      FoldFit(out, [Tlv(SACK_PERM, [])], TimeOn(wscale, timestamps, tsVal, tsEcr), room);
      FoldOne(out, Tlv(SACK_PERM, []));
      TimeStage(out.(hasSackPerm := true), room - 2, wscale, timestamps, tsVal, tsEcr);
    }
  }

  lemma MssStage(size: nat, mss: u16, wscale: byte, sackPerm: bool, timestamps: bool, tsVal: u32, tsEcr: u32)
    ensures Fold(NONE, Fit(SynGroups(mss, wscale, sackPerm, timestamps, tsVal, tsEcr), size)) ==
              if size < 4 then NONE
              else AfterPerm(NONE.(hasMss := true, mss := mss), size - 4, wscale, sackPerm, timestamps, tsVal, tsEcr)
  {
    hide *;
    SynParts(mss, wscale, sackPerm, timestamps, tsVal, tsEcr, []);
    GroupLengths(mss, wscale, tsVal, tsEcr, []);
    FoldFit(NONE, [MssToken(mss)], PermOn(wscale, sackPerm, timestamps, tsVal, tsEcr), size);
    FoldOne(NONE, MssToken(mss));
    ApplyMss(NONE, mss);
    PermStage(NONE.(hasMss := true, mss := mss), size - 4, wscale, sackPerm, timestamps, tsVal, tsEcr);
  }

  /** The stages together recover everything exactly when everything fits. */
  lemma AllStages(size: nat, mss: u16, wscale: byte, sackPerm: bool, timestamps: bool, tsVal: u32, tsEcr: u32)
    ensures (if size < 4 then NONE
             else AfterPerm(NONE.(hasMss := true, mss := mss), size - 4, wscale, sackPerm, timestamps, tsVal, tsEcr))
            == Parsed(true, mss, true, Min(wscale, 14), sackPerm, timestamps,
                      if timestamps then tsVal else 0, if timestamps then tsEcr else 0, [])
            <==> size >= SynLength(sackPerm, timestamps)
  {
  }

  /**
   * Data round trip: timestamps are recovered exactly when 12 bytes fit; the
   * first four blocks are recovered together when they fit behind what came
   * before, and otherwise none is.
   */
  lemma DataRoundTrip(size: nat, timestamps: bool, tsVal: u32, tsEcr: u32, blocks: seq<Block>)
    ensures var read := Fold(NONE, Tokens(EncodeAll(Written(DataGroups(timestamps, tsVal, tsEcr, blocks), size))));
            var stamped := timestamps && size >= 12;
            var room := size - if timestamps then 12 else 0;
            read == Parsed(false, 0, false, 0, false, stamped, if stamped then tsVal else 0, if stamped then tsEcr else 0,
                           if room >= 4 + 8 * Min(|blocks|, 4) then Clipped(blocks) else [])
  {
    hide Tokens, Written, Apply, Fold, Fit, EncodeAll, Encode, AllLegal, Groups, DataGroups, SackOn, Clipped;
    ParseWritten(DataGroups(timestamps, tsVal, tsEcr, blocks), size);
    DataParts(timestamps, tsVal, tsEcr, blocks, []);
    if timestamps {
      GroupLengths(0, 0, tsVal, tsEcr, []);
      FoldFit(NONE, [Nop, Nop, TimeToken(tsVal, tsEcr)], SackOn(blocks), size);
      FoldOne(NONE, TimeToken(tsVal, tsEcr));
      ApplyTime(NONE, tsVal, tsEcr);
      if size >= 12 { SackStage(NONE.(hasTimestamps := true, tsVal := tsVal, tsEcr := tsEcr), size - 12, blocks); }
    } else {
      SackStage(NONE, size, blocks);
    }
  }

  lemma SackStage(out: Parsed, room: nat, blocks: seq<Block>)
    requires out.sack == []
    ensures Fold(out, Fit(SackOn(blocks), room)) ==
              out.(sack := if room >= 4 + 8 * Min(|blocks|, 4) then Clipped(blocks) else [])
  {
    if blocks == [] {
      assert Clipped(blocks) == [] && out.(sack := []) == out;
    } else {
      var clipped := Clipped(blocks);
      assert SackOn(blocks) == [[Nop, Nop, SackToken(clipped)]] + [] && AllLegal([Nop, Nop, SackToken(clipped)]);
      assert Fold(out.(sack := clipped), Fit([], room - 4 - 8 * |clipped|)) == out.(sack := clipped);
      hide Fold, Fit, EncodeAll, Encode, Apply, SackOn, Clipped, Legal, AllBlockBytes;
      GroupLengths(0, 0, 0, 0, clipped);
      FoldFit(out, [Nop, Nop, SackToken(clipped)], [], room);
      FoldOne(out, SackToken(clipped));
      ApplySack(out, clipped);
    }
  }

  /** In the 40-byte option area of a segment every block given is recovered, except with timestamps and four or more. */
  lemma SackInSegment(timestamps: bool, tsVal: u32, tsEcr: u32, blocks: seq<Block>)
    requires |blocks| <= 4
    ensures var read := Fold(NONE, Tokens(EncodeAll(Written(DataGroups(timestamps, tsVal, tsEcr, blocks), 40))));
            && (read.sack == blocks <==> !(timestamps && |blocks| == 4))
            && (timestamps && |blocks| == 4 ==> read.sack == [])
  {
    DataRoundTrip(40, timestamps, tsVal, tsEcr, blocks);
    hide Fold, Tokens, EncodeAll, Written, DataGroups;
  }

  /** Padding aligns the options, and the data offset computed from them announces exactly their bytes. */
  lemma HeaderAnnounces(groups: seq<seq<Token>>)
    requires Groups(groups)
    ensures var n := |EncodeAll(Written(groups, 40))|;
            n <= 40 && n % 4 == 0 && AreaLength((20 + n) / 4 * 16) == n
  {
    FitFits(groups, 40);
    var fit := Fit(groups, 40);
    var pad := PadLength(|EncodeAll(fit)|, 40);
    assert Written(groups, 40) == fit + Nops(pad);
    hide *;
    EncodeConcat(fit, Nops(pad));
    NopBytes(pad);
    PadAligns(|EncodeAll(fit)|);
  }

  lemma PadAligns(n: nat)
    requires n <= 40
    ensures var m := n + PadLength(n, 40); m <= 40 && m % 4 == 0 && AreaLength((20 + m) / 4 * 16) == m
  {
  }

  lemma {:induction false} NopBytes(k: nat)
    ensures |EncodeAll(Nops(k))| == k
  {
    if k > 0 {
      assert Nops(k)[1..] == Nops(k - 1);
      NopBytes(k - 1);
    }
  }
}
