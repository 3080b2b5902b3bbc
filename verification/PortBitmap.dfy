/**
 * The per-source bitmap of the port pool (tcp_port_pool.c): 782 words of 64
 * bits for 50000 ports, a set bit meaning an available port. The 48 padding bits of the
 * last word are set as well. A word is the natural number it encodes.
 */
module PortBitmap {
  import opened Basics
  import opened Powers

  const PORTS: int := 50000
  const WORDS: int := 782

  // -------------------------------------------------------- word operations

  function BitAnd(a: nat, b: nat): nat
    decreases a
  {
    if a == 0 then 0
    else 2 * BitAnd(a / 2, b / 2) + (if a % 2 == 1 && b % 2 == 1 then 1 else 0)
  }

  /** a & ~b */
  function AndNot(a: nat, b: nat): nat
    decreases a
  {
    if a == 0 then 0
    else 2 * AndNot(a / 2, b / 2) + (if a % 2 == 1 && b % 2 == 0 then 1 else 0)
  }

  /** __builtin_ctzll */
  function TrailingZeros(w: nat): nat
    requires w > 0
  {
    if w % 2 == 1 then 0 else 1 + TrailingZeros(w / 2)
  }

  lemma {:induction false} AndBits(a: nat, b: nat, i: nat)
    ensures Bit(BitAnd(a, b), i) <==> Bit(a, i) && Bit(b, i)
    decreases i
  {
    if a == 0 {
      ZeroBits(i);
    } else if i > 0 {
      assert BitAnd(a, b) / 2 == BitAnd(a / 2, b / 2);
      AndBits(a / 2, b / 2, i - 1);
    }
  }

  lemma {:induction false} AndNotBits(a: nat, b: nat, i: nat)
    ensures Bit(AndNot(a, b), i) <==> Bit(a, i) && !Bit(b, i)
    decreases i
  {
    if a == 0 {
      ZeroBits(i);
    } else if i > 0 {
      assert AndNot(a, b) / 2 == AndNot(a / 2, b / 2);
      AndNotBits(a / 2, b / 2, i - 1);
    }
  }

  lemma {:induction false} OneBit(k: nat, i: nat)
    ensures Bit(Pow2(k), i) <==> i == k
    decreases k
  {
    if k == 0 {
      assert Pow2(0) == 1;
      if i > 0 { ZeroBits(i - 1); }
    } else {
      assert Pow2(k) / 2 == Pow2(k - 1) && Pow2(k) % 2 == 0;
      if i > 0 { OneBit(k - 1, i - 1); }
    }
  }

  lemma {:induction false} LowBits(k: nat, i: nat)
    ensures Bit(Pow2(k) - 1, i) <==> i < k
    decreases k
  {
    if k == 0 {
      ZeroBits(i);
    } else {
      assert (Pow2(k) - 1) / 2 == Pow2(k - 1) - 1 && (Pow2(k) - 1) % 2 == 1;
      if i > 0 { LowBits(k - 1, i - 1); }
    }
  }

  lemma {:induction false} TrailingZerosIsFirst(w: nat)
    requires w > 0
    ensures Bit(w, TrailingZeros(w)) && forall i: nat :: i < TrailingZeros(w) ==> !Bit(w, i)
  {
    if w % 2 == 0 {
      TrailingZerosIsFirst(w / 2);
      forall i: nat | i < TrailingZeros(w) ensures !Bit(w, i) {
        if i > 0 { assert !Bit(w / 2, i - 1); }
      }
    }
  }

  /** A nonzero word has a first set bit, and a zero word none. */
  lemma FirstBit(w: nat)
    ensures w == 0 ==> forall i: nat :: !Bit(w, i)
    ensures w > 0 ==> Bit(w, TrailingZeros(w)) && forall i: nat :: i < TrailingZeros(w) ==> !Bit(w, i)
  {
    if w == 0 {
      forall i: nat ensures !Bit(w, i) { ZeroBits(i); }
    } else {
      TrailingZerosIsFirst(w);
    }
  }

  // ----------------------------------------------------------------- bitmaps

  /** A 64-bit word. */
  ghost predicate IsWord(w: nat) { forall i: nat :: i >= 64 ==> !Bit(w, i) }

  ghost predicate IsMap(words: seq<nat>) {
    |words| == WORDS && forall i :: 0 <= i < WORDS ==> IsWord(words[i])
  }

  lemma WordSet(w: nat, k: nat)
    requires IsWord(w) && k < 64
    ensures IsWord(BitOr(w, Pow2(k)))
  {
    forall i: nat | i >= 64 ensures !Bit(BitOr(w, Pow2(k)), i) {
      OrBits(w, Pow2(k), i);
      OneBit(k, i);
    }
  }

  lemma WordClear(w: nat, k: nat)
    requires IsWord(w)
    ensures IsWord(AndNot(w, Pow2(k)))
  {
    forall i: nat | i >= 64 ensures !Bit(AndNot(w, Pow2(k)), i) { AndNotBits(w, Pow2(k), i); }
  }

  predicate Avail(words: seq<nat>, bit: nat)
    requires IsMap(words) && bit < 64 * WORDS
  {
    Bit(words[bit / 64], bit % 64)
  }

  /** bm_set */
  function SetBit(words: seq<nat>, bit: nat): (r: seq<nat>)
    requires IsMap(words) && bit < PORTS
    ensures IsMap(r)
  {
    WordSet(words[bit / 64], bit % 64);
    words[bit / 64 := BitOr(words[bit / 64], Pow2(bit % 64))]
  }

  /** bm_clear */
  function ClearBit(words: seq<nat>, bit: nat): (r: seq<nat>)
    requires IsMap(words) && bit < PORTS
    ensures IsMap(r)
  {
    WordClear(words[bit / 64], bit % 64);
    words[bit / 64 := AndNot(words[bit / 64], Pow2(bit % 64))]
  }

  /** The available ports of a bitmap. */
  function Ports(words: seq<nat>): set<nat>
    requires IsMap(words)
  {
    set b: nat | b < PORTS && Avail(words, b)
  }

  lemma SetBitAvail(words: seq<nat>, bit: nat)
    requires IsMap(words) && bit < PORTS
    ensures Ports(SetBit(words, bit)) == Ports(words) + {bit}
  {
    var r := SetBit(words, bit);
    forall b: nat | b < PORTS ensures Avail(r, b) <==> Avail(words, b) || b == bit {
      OrBits(words[bit / 64], Pow2(bit % 64), b % 64);
      OneBit(bit % 64, b % 64);
    }
  }

  lemma ClearBitAvail(words: seq<nat>, bit: nat)
    requires IsMap(words) && bit < PORTS
    ensures Ports(ClearBit(words, bit)) == Ports(words) - {bit}
  {
    var r := ClearBit(words, bit);
    forall b: nat | b < PORTS ensures Avail(r, b) <==> Avail(words, b) && b != bit {
      AndNotBits(words[bit / 64], Pow2(bit % 64), b % 64);
      OneBit(bit % 64, b % 64);
    }
  }

  /** memset 0xff: every port and every padding bit. */
  function Full(): (r: seq<nat>)
    ensures IsMap(r)
  {
    FullIsWord();
    seq(WORDS, _ => Pow2(64) - 1)
  }

  lemma FullIsWord()
    ensures IsWord(Pow2(64) - 1)
  {
    var ones := Pow2(64) - 1;
    forall i: nat | i >= 64 ensures !Bit(ones, i) { LowBits(64, i); }
  }

  lemma FullIsAll()
    ensures forall b: nat :: b < PORTS ==> b in Ports(Full())
  {
    hide Pow2, Bit;
    forall b: nat | b < PORTS ensures Avail(Full(), b) { LowBits(64, b % 64); }
  }

  /** The port at distance d from start, going round. */
  function Round(start: nat, d: nat): nat { (start + d) % PORTS }

  ghost predicate NoneBefore(avail: set<nat>, start: nat, k: nat) {
    forall d: nat :: d < k ==> Round(start, d) !in avail
  }

  /** r is the first available port at or cyclically after start. */
  ghost predicate FirstFrom(avail: set<nat>, start: nat, r: nat) {
    r in avail && NoneBefore(avail, start, (r - start) % PORTS)
  }

  /** The bit-by-bit cyclic scan that the word scan refines. */
  function Scan(avail: set<nat>, start: nat, d: nat): Option<nat>
    decreases PORTS - d
  {
    if d >= PORTS then None
    else if Round(start, d) in avail then Some(Round(start, d))
    else Scan(avail, start, d + 1)
  }

  lemma {:induction false} ScanFinds(avail: set<nat>, start: nat, r: nat, d: nat)
    requires start < PORTS && r < PORTS && FirstFrom(avail, start, r) && d <= (r - start) % PORTS
    ensures Scan(avail, start, d) == Some(r)
    decreases PORTS - d
  {
    var k := (r - start) % PORTS;
    assert Round(start, k) == r;
    if d < k {
      assert Round(start, d) !in avail;
      ScanFinds(avail, start, r, d + 1);
    }
  }

  lemma {:induction false} ScanFails(start: nat, d: nat)
    ensures Scan({}, start, d) == None
    decreases PORTS - d
  {
    if d < PORTS { ScanFails(start, d + 1); }
  }

  /** The scan condition of one word: either a hit at pos, or nothing among the ports of the word. */
  lemma ScanWord(words: seq<nat>, i: nat, masked: nat, from: nat, to: nat)
    requires IsMap(words) && i < WORDS && from <= to <= 64
    requires forall j: nat :: j < 64 ==> (Bit(masked, j) <==> Bit(words[i], j) && from <= j < to)
    requires forall j: nat :: j >= 64 ==> !Bit(masked, j)
    ensures Scanned(words, i, masked, from, to)
  {
    FirstBit(masked);
    if masked > 0 {
      var t := TrailingZeros(masked);
      assert t < 64 && Bit(words[i], t) && from <= t < to;
      assert (64 * i + t) / 64 == i && (64 * i + t) % 64 == t;
      forall b: nat | 64 * i + from <= b < 64 * i + t ensures b !in Ports(words) {
        assert b / 64 == i && b % 64 == b - 64 * i;
        assert !Bit(masked, b - 64 * i);
      }
    } else {
      forall b: nat | 64 * i + from <= b < 64 * i + to && b < PORTS ensures b !in Ports(words) {
        assert b / 64 == i && b % 64 == b - 64 * i;
        assert !Bit(masked, b - 64 * i);
      }
    }
  }

  lemma FirstAhead(avail: set<nat>, start: nat, r: nat)
    requires start <= r < PORTS && r in avail && forall b: nat :: start <= b < r ==> b !in avail
    ensures FirstFrom(avail, start, r)
  {
  }

  lemma FirstBehind(avail: set<nat>, start: nat, r: nat)
    requires r < start < PORTS && r in avail
    requires forall b: nat :: start <= b < PORTS ==> b !in avail
    requires forall b: nat :: b < r ==> b !in avail
    ensures FirstFrom(avail, start, r)
  {
    forall d: nat | d < (r - start) % PORTS ensures Round(start, d) !in avail {
      if start + d >= PORTS { assert Round(start, d) == start + d - PORTS; }
    }
  }

  /**
   * bm_find_next: the first available port at or cyclically after start, and
   * failure exactly when no port is available, whatever the padding bits hold.
   */
  method FindNext(words: seq<nat>, start: nat) returns (r: Option<nat>)
    requires IsMap(words) && start < PORTS
    ensures r == Scan(Ports(words), start, 0)
    ensures r.None? <==> Ports(words) == {}
    ensures r.Some? ==> FirstFrom(Ports(words), start, r.value)
  {
    hide Ports, Scan, FirstFrom;
    var w := start / 64;
    var b := start % 64;
    var masked := AndNot(words[w], Pow2(b) - 1);
    HighMask(words, w, b);
    if masked != 0 {
      var pos := 64 * w + TrailingZeros(masked);
      if pos < PORTS {
        FirstAhead(Ports(words), start, pos);
          ScanFinds(Ports(words), start, pos, 0);
        return Some(pos);
      }
    }
    var i := w + 1;
    while i < WORDS
      invariant w < i <= WORDS
      invariant forall p: nat :: start <= p < 64 * i && p < PORTS ==> p !in Ports(words)
    {
      WholeWord(words, i);
      if words[i] != 0 {
        var pos := 64 * i + TrailingZeros(words[i]);
        if pos < PORTS {
          FirstAhead(Ports(words), start, pos);
          ScanFinds(Ports(words), start, pos, 0);
          return Some(pos);
        }
      }
      i := i + 1;
    }
    assert forall p: nat :: start <= p < PORTS ==> p !in Ports(words);
    i := 0;
    while i <= w
      invariant i <= w + 1
      invariant forall p: nat :: p < 64 * i && p < start ==> p !in Ports(words)
    {
      var word := words[i];
      if i == w {
        word := BitAnd(word, Pow2(b) - 1);
        LowMask(words, w, b);
      } else {
        WholeWord(words, i);
      }
      if word != 0 {
        var pos := 64 * i + TrailingZeros(word);
        if pos < PORTS {
          FirstBehind(Ports(words), start, pos);
          ScanFinds(Ports(words), start, pos, 0);
          return Some(pos);
        }
      }
      i := i + 1;
    }
    Exhausted(words, start);
    ScanFails(start, 0);
    return None;
  }

  lemma Exhausted(words: seq<nat>, start: nat)
    requires IsMap(words)
    requires forall p: nat :: start <= p < PORTS ==> p !in Ports(words)
    requires forall p: nat :: p < start ==> p !in Ports(words)
    ensures Ports(words) == {}
  {
  }

  /** What the scan learns about word i from its masked bits in [from, to). */
  ghost predicate Scanned(words: seq<nat>, i: nat, masked: nat, from: nat, to: nat)
    requires IsMap(words)
  {
    && (masked == 0 ==> forall b: nat :: 64 * i + from <= b < 64 * i + to && b < PORTS ==> b !in Ports(words))
    && (masked > 0 ==>
          var pos := 64 * i + TrailingZeros(masked);
          && (pos < PORTS ==> pos in Ports(words) && 64 * i + from <= pos < 64 * i + to
                              && forall b: nat :: 64 * i + from <= b < pos ==> b !in Ports(words))
          && (pos >= PORTS ==> forall b: nat :: 64 * i + from <= b < 64 * i + to && b < PORTS ==> b !in Ports(words)))
  }

  lemma HighMask(words: seq<nat>, i: nat, b: nat)
    requires IsMap(words) && i < WORDS && b < 64
    ensures Scanned(words, i, AndNot(words[i], Pow2(b) - 1), b, 64)
  {
    var masked := AndNot(words[i], Pow2(b) - 1);
    forall j: nat ensures Bit(masked, j) <==> Bit(words[i], j) && b <= j {
      AndNotBits(words[i], Pow2(b) - 1, j);
      LowBits(b, j);
    }
    ScanWord(words, i, masked, b, 64);
  }

  lemma LowMask(words: seq<nat>, i: nat, b: nat)
    requires IsMap(words) && i < WORDS && b < 64
    ensures Scanned(words, i, BitAnd(words[i], Pow2(b) - 1), 0, b)
  {
    var masked := BitAnd(words[i], Pow2(b) - 1);
    forall j: nat ensures Bit(masked, j) <==> Bit(words[i], j) && j < b {
      AndBits(words[i], Pow2(b) - 1, j);
      LowBits(b, j);
    }
    ScanWord(words, i, masked, 0, b);
  }

  lemma WholeWord(words: seq<nat>, i: nat)
    requires IsMap(words) && i < WORDS
    ensures Scanned(words, i, words[i], 0, 64)
  {
    assert IsWord(words[i]);
    ScanWord(words, i, words[i], 0, 64);
  }
}
