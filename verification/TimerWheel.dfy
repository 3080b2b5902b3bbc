/**
 * The intrusive timer wheel of tcp_timer.c: doubly linked chains threaded
 * through the TCB array. `heads[c]` is the head of slot c, and heads[4096] the
 * head of the overflow chain; -1 stands for UINT32_MAX, both as the end of a
 * chain and as TIMER_SLOT_NONE. Every method is proved to compute the
 * corresponding function of WheelSpec on the chains as sequences.
 */
module TimerWheel {
  import opened Basics
  import opened WheelSpec

  const NONE: int := -1

  datatype Cell = Cell(rec: Record, next: int, prev: int, slot: int)

  /** tcb_free and rte_zmalloc leave all-zero records, links included. */
  const ZEROED: Cell := Cell(Record(false, DISARMED), 0, 0, 0)

  /** tcb_alloc clears the record and unlinks it by hand. */
  const OPENED: Cell := Cell(Record(true, DISARMED), NONE, NONE, NONE)

  // -------------------------------------------------------------- link shape

  function NextIn(chain: seq<nat>, p: nat): int { if p + 1 < |chain| then chain[p + 1] else NONE }

  function PrevIn(chain: seq<nat>, p: nat): int { if 0 < p <= |chain| then chain[p - 1] else NONE }

  /** A chain is threaded through the cells with matching next, prev and slot. */
  ghost predicate Threaded(cells: seq<Cell>, c: int, chain: seq<nat>) {
    forall p {:trigger chain[p]} {:trigger ThreadAt(cells, c, chain, p)} :: 0 <= p < |chain| ==> ThreadAt(cells, c, chain, p)
  }

  predicate ThreadAt(cells: seq<Cell>, c: int, chain: seq<nat>, p: nat)
    requires p < |chain|
  {
    && chain[p] < |cells|
    && cells[chain[p]].slot == c
    && cells[chain[p]].next == NextIn(chain, p)
    && cells[chain[p]].prev == PrevIn(chain, p)
  }

  function HeadOf(chain: seq<nat>): int { if chain == [] then NONE else chain[0] }

  /** A detached chain still being walked: only its next links are used. */
  ghost predicate Walkable(cells: seq<Cell>, rest: seq<nat>) {
    && (forall p {:trigger rest[p]} :: 0 <= p < |rest| ==>
          rest[p] < |cells| && cells[rest[p]].rec.inUse && cells[rest[p]].next == NextIn(rest, p))
    && Distinct(rest)
  }

  /** Heads and links of every chain. */
  ghost predicate AllThreaded(heads: seq<int>, cells: seq<Cell>, chains: seq<seq<nat>>) {
    && |heads| == |chains| == SLOTS + 1
    && forall c :: 0 <= c <= OVERFLOW ==> heads[c] == HeadOf(chains[c]) && Threaded(cells, c, chains[c])
  }

  /** The records being walked are on no chain. */
  ghost predicate Apart(chains: seq<seq<nat>>, rest: seq<nat>) {
    |chains| == SLOTS + 1 && forall i, c :: 0 <= c <= OVERFLOW && i in rest ==> i !in chains[c]
  }

  /** Every live record with a slot is on the chain of that slot, or being walked. */
  ghost predicate SlotsRight(cells: seq<Cell>, chains: seq<seq<nat>>, rest: seq<nat>) {
    && |chains| == SLOTS + 1
    && forall i :: 0 <= i < |cells| && cells[i].rec.inUse && i !in rest && cells[i].slot != NONE ==>
         0 <= cells[i].slot <= OVERFLOW && i in chains[cells[i].slot]
  }

  ghost predicate Linked(heads: seq<int>, cells: seq<Cell>, chains: seq<seq<nat>>, rest: seq<nat>) {
    && AllThreaded(heads, cells, chains) && Walkable(cells, rest)
    && Apart(chains, rest) && SlotsRight(cells, chains, rest)
  }

  function Records(cells: seq<Cell>): (r: seq<Record>)
    ensures |r| == |cells| && forall i :: 0 <= i < |r| ==> r[i] == cells[i].rec
  {
    seq(|cells|, i requires 0 <= i < |cells| => cells[i].rec)
  }

  // --------------------------------------------------------- link operations

  predicate Bound(i: int, cells: seq<Cell>) { i == NONE || 0 <= i < |cells| }

  /** The link updates of wheel_remove for a scheduled record. */
  function Unlink(heads: seq<int>, cells: seq<Cell>, i: nat): (seq<int>, seq<Cell>)
    requires i < |cells| && 0 <= cells[i].slot < |heads|
    requires Bound(cells[i].prev, cells) && Bound(cells[i].next, cells)
  {
    var (slot, prev, next) := (cells[i].slot, cells[i].prev, cells[i].next);
    var heads' := if prev == NONE then heads[slot := next] else heads;
    var cells1 := if prev == NONE then cells else cells[prev := cells[prev].(next := next)];
    var cells2 := if next == NONE then cells1 else cells1[next := cells1[next].(prev := prev)];
    (heads', cells2[i := cells2[i].(slot := NONE, next := NONE, prev := NONE)])
  }

  /** The link updates of wheel_insert_slot. */
  function LinkFirst(heads: seq<int>, cells: seq<Cell>, i: nat, c: nat): (seq<int>, seq<Cell>)
    requires i < |cells| && c < |heads| && Bound(heads[c], cells)
  {
    var head := heads[c];
    var cells1 := cells[i := cells[i].(prev := NONE, next := head, slot := c)];
    var cells2 := if head == NONE then cells1 else cells1[head := cells1[head].(prev := i)];
    (heads[c := i], cells2)
  }

  lemma ThreadedFrame(cells: seq<Cell>, cells': seq<Cell>, c: int, chain: seq<nat>)
    requires Threaded(cells, c, chain) && |cells'| == |cells|
    requires forall i :: i in chain ==> i < |cells| && cells'[i] == cells[i]
    ensures Threaded(cells', c, chain)
  {
    forall p: nat | p < |chain| ensures ThreadAt(cells', c, chain, p) {
      assert chain[p] in chain && ThreadAt(cells, c, chain, p);
    }
  }

  /** Unlink, cell by cell. */
  lemma UnlinkCell(heads: seq<int>, cells: seq<Cell>, i: nat, j: nat)
    requires i < |cells| && 0 <= cells[i].slot < |heads| && j < |cells|
    requires Bound(cells[i].prev, cells) && Bound(cells[i].next, cells) && cells[i].prev != i && cells[i].next != i
    ensures var cells' := Unlink(heads, cells, i).1;
            && |cells'| == |cells| && cells'[j].rec == cells[j].rec
            && (j == i ==> cells'[j].slot == NONE)
            && (j != i ==> cells'[j].slot == cells[j].slot)
            && (j != i ==> cells'[j].next == if j == cells[i].prev then cells[i].next else cells[j].next)
            && (j != i ==> cells'[j].prev == if j == cells[i].next then cells[i].prev else cells[j].prev)
  {
  }

  /** The neighbours of position q after position p is taken out. */
  lemma Neighbours(chain: seq<nat>, p: nat, q: nat)
    requires Distinct(chain) && p < |chain| && q < |chain| && q != p
    ensures var rest := chain[..p] + chain[p + 1..];
            var q' := if q < p then q else q - 1;
            && q' < |rest| && rest[q'] == chain[q]
            && NextIn(rest, q') == (if chain[q] == PrevIn(chain, p) then NextIn(chain, p) else NextIn(chain, q))
            && PrevIn(rest, q') == (if chain[q] == NextIn(chain, p) then PrevIn(chain, p) else PrevIn(chain, q))
  {
  }

  lemma ChainBounds(cells: seq<Cell>, c: int, chain: seq<nat>, p: nat)
    requires Threaded(cells, c, chain) && Distinct(chain) && p < |chain|
    ensures chain[p] < |cells| && cells[chain[p]].slot == c
    ensures cells[chain[p]].next == NextIn(chain, p) && cells[chain[p]].prev == PrevIn(chain, p)
    ensures Bound(PrevIn(chain, p), cells) && Bound(NextIn(chain, p), cells)
    ensures PrevIn(chain, p) != chain[p] && NextIn(chain, p) != chain[p]
    ensures PrevIn(chain, p) != NONE ==> PrevIn(chain, p) in chain
    ensures NextIn(chain, p) != NONE ==> NextIn(chain, p) in chain
  {
    if p + 1 < |chain| { assert chain[p + 1] < |cells|; }
    if p > 0 { assert chain[p - 1] < |cells|; }
  }

  lemma UnlinkOne(heads: seq<int>, cells: seq<Cell>, c: nat, chain: seq<nat>, p: nat, q: nat)
    requires c < |heads| && Threaded(cells, c, chain) && Distinct(chain) && p < |chain| && q < |chain| && q != p
    ensures chain[p] < |cells| && cells[chain[p]].slot == c
    ensures Bound(cells[chain[p]].prev, cells) && Bound(cells[chain[p]].next, cells)
    ensures var rest := chain[..p] + chain[p + 1..];
            ThreadAt(Unlink(heads, cells, chain[p]).1, c, rest, if q < p then q else q - 1)
  {
    hide Threaded, Unlink, NextIn, PrevIn, Bound;
    ChainBounds(cells, c, chain, p);
    ChainBounds(cells, c, chain, q);
    Neighbours(chain, p, q);
    assert chain[q] != chain[p];
    hide Distinct;
    UnlinkCell(heads, cells, chain[p], chain[q]);
  }

  /** Taking out position p of a threaded chain. */
  lemma UnlinkThreads(heads: seq<int>, cells: seq<Cell>, c: nat, chain: seq<nat>, p: nat)
    requires c < |heads| && Threaded(cells, c, chain) && Distinct(chain) && p < |chain|
    ensures chain[p] < |cells| && cells[chain[p]].slot == c
    ensures Bound(cells[chain[p]].prev, cells) && Bound(cells[chain[p]].next, cells)
    ensures Threaded(Unlink(heads, cells, chain[p]).1, c, chain[..p] + chain[p + 1..])
  {
    hide *;
    ChainBounds(cells, c, chain, p);
    var cells' := Unlink(heads, cells, chain[p]).1;
    var rest := chain[..p] + chain[p + 1..];
    forall q: nat | q < |rest| ensures ThreadAt(cells', c, rest, q) {
      UnlinkOne(heads, cells, c, chain, p, if q < p then q else q + 1);
    }
    ThreadedFromEach(cells', c, rest);
  }

  lemma ThreadedFromEach(cells: seq<Cell>, c: int, chain: seq<nat>)
    requires forall p: nat :: p < |chain| ==> ThreadAt(cells, c, chain, p)
    ensures Threaded(cells, c, chain)
  {
  }

  /** What Unlink leaves alone, and the new head. */
  lemma UnlinkFrame(heads: seq<int>, cells: seq<Cell>, c: nat, chain: seq<nat>, p: nat)
    requires c < |heads| && heads[c] == HeadOf(chain) && Threaded(cells, c, chain) && Distinct(chain) && p < |chain|
    ensures chain[p] < |cells| && cells[chain[p]].slot == c
    ensures Bound(cells[chain[p]].prev, cells) && Bound(cells[chain[p]].next, cells)
    ensures var (heads', cells') := Unlink(heads, cells, chain[p]);
            && heads' == heads[c := HeadOf(chain[..p] + chain[p + 1..])]
            && |cells'| == |cells| && cells'[chain[p]].slot == NONE
            && (forall i :: 0 <= i < |cells| && i !in chain ==> cells'[i] == cells[i])
            && (forall i :: 0 <= i < |cells| ==> cells'[i].rec == cells[i].rec)
            && (forall i :: 0 <= i < |cells| && i != chain[p] ==> cells'[i].slot == cells[i].slot)
  {
    ChainBounds(cells, c, chain, p);
    UnlinkHead(heads, cells, c, chain, p);
    var cells' := Unlink(heads, cells, chain[p]).1;
    hide *;
    forall i | 0 <= i < |cells|
      ensures |cells'| == |cells| && cells'[i].rec == cells[i].rec
      ensures i != chain[p] ==> cells'[i].slot == cells[i].slot
      ensures i == chain[p] ==> cells'[i].slot == NONE
      ensures i !in chain ==> cells'[i] == cells[i]
    {
      UnlinkCell(heads, cells, chain[p], i);
    }
  }

  lemma UnlinkHead(heads: seq<int>, cells: seq<Cell>, c: nat, chain: seq<nat>, p: nat)
    requires c < |heads| && heads[c] == HeadOf(chain) && p < |chain| && chain[p] < |cells|
    requires cells[chain[p]].slot == c && cells[chain[p]].next == NextIn(chain, p) && cells[chain[p]].prev == PrevIn(chain, p)
    requires Bound(cells[chain[p]].prev, cells) && Bound(cells[chain[p]].next, cells)
    ensures Unlink(heads, cells, chain[p]).0 == heads[c := HeadOf(chain[..p] + chain[p + 1..])]
  {
    var rest := chain[..p] + chain[p + 1..];
    if p == 0 {
      assert HeadOf(rest) == NextIn(chain, 0);
    } else {
      assert rest[0] == chain[0];
    }
  }

  /** Putting a record in front of a threaded chain. */
  lemma LinkFirstThreads(heads: seq<int>, cells: seq<Cell>, c: nat, chain: seq<nat>, i: nat)
    requires c < |heads| && heads[c] == HeadOf(chain) && Threaded(cells, c, chain) && Distinct(chain)
    requires i < |cells| && i !in chain
    ensures Bound(heads[c], cells)
    ensures var (heads', cells') := LinkFirst(heads, cells, i, c);
            && Threaded(cells', c, [i] + chain) && heads'[c] == i
            && (forall d :: 0 <= d < |heads| && d != c ==> heads'[d] == heads[d])
            && (forall j :: 0 <= j < |cells| && j !in chain && j != i ==> cells'[j] == cells[j])
            && (forall j :: 0 <= j < |cells| ==> cells'[j].rec == cells[j].rec)
            && (forall j :: 0 <= j < |cells| && j != i ==> cells'[j].slot == cells[j].slot)
            && cells'[i].slot == c
  {
    if chain != [] { assert chain[0] < |cells|; }
    var (heads', cells') := LinkFirst(heads, cells, i, c);
    var longer := [i] + chain;
    forall q: nat | q < |longer| ensures ThreadAt(cells', c, longer, q) {
      if q > 0 {
        assert longer[q] == chain[q - 1] && chain[q - 1] in chain && chain[q - 1] != i;
        assert cells[chain[q - 1]].next == NextIn(chain, q - 1) && cells[chain[q - 1]].prev == PrevIn(chain, q - 1);
      }
    }
  }

  lemma WalkableFrame(cells: seq<Cell>, cells': seq<Cell>, rest: seq<nat>)
    requires Walkable(cells, rest) && |cells'| == |cells|
    requires forall i :: i in rest ==> i < |cells| && cells'[i] == cells[i]
    ensures Walkable(cells', rest)
  {
    forall p | 0 <= p < |rest| ensures rest[p] < |cells'| && cells'[rest[p]] == cells[rest[p]] {
      assert rest[p] in rest;
    }
  }

  // ------------------------------------------------ operations on all chains

  /** The links realise the wheel, apart from the detached records `rest`. */
  ghost predicate Realises(heads: seq<int>, cells: seq<Cell>, w: Wheel, rest: seq<nat>) {
    WheelOk(w) && w.records == Records(cells) && Linked(heads, cells, w.chains, rest)
  }

  lemma ThreadedOff(cells: seq<Cell>, cells': seq<Cell>, w: Wheel, c: int, d: int)
    requires WheelOk(w) && 0 <= c <= OVERFLOW && 0 <= d <= OVERFLOW && d != c
    requires Threaded(cells, d, w.chains[d]) && |cells'| == |cells|
    requires forall i :: 0 <= i < |cells| && i !in w.chains[c] ==> cells'[i] == cells[i]
    ensures Threaded(cells', d, w.chains[d])
  {
    forall i | i in w.chains[d] ensures i < |cells| && cells'[i] == cells[i] {
      assert On(w, d, i) && !On(w, c, i);
      var p :| 0 <= p < |w.chains[d]| && w.chains[d][p] == i;
    }
    ThreadedFrame(cells, cells', d, w.chains[d]);
  }

  /** wheel_remove: unlinking a scheduled record realises its detachment. */
  lemma UnlinkRealises(heads: seq<int>, cells: seq<Cell>, w: Wheel, rest: seq<nat>, i: nat)
    requires Realises(heads, cells, w, rest) && i < |cells| && cells[i].rec.inUse && i !in rest
    requires cells[i].slot != NONE
    ensures 0 <= cells[i].slot < |heads| && Bound(cells[i].prev, cells) && Bound(cells[i].next, cells)
    ensures var (heads', cells') := Unlink(heads, cells, i);
            Realises(heads', cells', Detach(w, i), rest) && cells'[i].slot == NONE
  {
    var c := cells[i].slot;
    var chain := w.chains[c];
    var p :| 0 <= p < |chain| && chain[p] == i;
    assert Threaded(cells, c, chain) && Distinct(chain) && heads[c] == HeadOf(chain) && On(w, c, i);
    DetachOk(w, i);
    ShapeOf(w);
    hide WheelOk, SlotsRight, AllThreaded, Apart, Walkable, Threaded, HeadOf, Distinct;
    UnlinkFrame(heads, cells, c, chain, p);
    UnlinkAllThreaded(heads, cells, w, c, i, p);
    var cells' := Unlink(heads, cells, i).1;
    hide Unlink, Detach;
    RecordsSame(cells, cells');
    LeavesRestAlone(cells, cells', w, rest, c, i);
    SlotsAfter(cells, cells', w, Detach(w, i), rest, i);
  }

  lemma RecordsSame(cells: seq<Cell>, cells': seq<Cell>)
    requires |cells'| == |cells| && forall i :: 0 <= i < |cells| ==> cells'[i].rec == cells[i].rec
    ensures Records(cells') == Records(cells)
  {
  }

  lemma UnlinkAllThreaded(heads: seq<int>, cells: seq<Cell>, w: Wheel, c: nat, i: nat, p: nat)
    requires WheelOk(w) && AllThreaded(heads, cells, w.chains) && c <= OVERFLOW && p < |w.chains[c]| && w.chains[c][p] == i
    ensures i < |cells| && cells[i].slot == c && Bound(cells[i].prev, cells) && Bound(cells[i].next, cells)
    ensures var (heads', cells') := Unlink(heads, cells, i); AllThreaded(heads', cells', Detach(w, i).chains)
  {
    var chain := w.chains[c];
    UnlinkThreads(heads, cells, c, chain, p);
    UnlinkFrame(heads, cells, c, chain, p);
    var (heads', cells') := Unlink(heads, cells, i);
    var w' := Detach(w, i);
    hide Unlink;
    WithoutAt(chain, p);
    forall d | 0 <= d <= OVERFLOW ensures heads'[d] == HeadOf(w'.chains[d]) && Threaded(cells', d, w'.chains[d]) {
      if d != c {
        assert On(w, c, i) && !On(w, d, i);
        WithoutAbsent(w.chains[d], i);
        ThreadedOff(cells, cells', w, c, d);
      }
    }
  }

  lemma LeavesRestAlone(cells: seq<Cell>, cells': seq<Cell>, w: Wheel, rest: seq<nat>, c: int, i: nat)
    requires 0 <= c <= OVERFLOW && |cells'| == |cells| && Walkable(cells, rest) && i !in rest
    requires Apart(w.chains, rest)
    requires forall j :: 0 <= j < |cells| && j !in w.chains[c] && j != i ==> cells'[j] == cells[j]
    ensures Walkable(cells', rest)
  {
    forall j | j in rest ensures j < |cells| && cells'[j] == cells[j] {
      var p :| 0 <= p < |rest| && rest[p] == j;
      assert rest[p] < |cells|;
      assert j !in w.chains[c];
    }
    WalkableFrame(cells, cells', rest);
  }

  /** After an operation on record i, every scheduled live record is still on the chain of its slot. */
  lemma SlotsAfter(cells: seq<Cell>, cells': seq<Cell>, w: Wheel, w': Wheel, rest: seq<nat>, i: nat)
    requires Shape(w) && Shape(w') && |cells'| == |cells| && i < |cells| && i !in rest
    requires SlotsRight(cells, w.chains, rest) && Apart(w.chains, rest)
    requires forall j :: 0 <= j < |cells| && j != i ==> cells'[j].slot == cells[j].slot && cells'[j].rec == cells[j].rec
    requires cells'[i].slot == NONE || On(w', cells'[i].slot, i)
    requires OnlyTouches(w, w', i)
    ensures SlotsRight(cells', w'.chains, rest) && Apart(w'.chains, rest)
  {
    forall j | 0 <= j < |cells'| && cells'[j].rec.inUse && j !in rest && cells'[j].slot != NONE
      ensures 0 <= cells'[j].slot <= OVERFLOW && j in w'.chains[cells'[j].slot]
    {
      if j != i { assert On(w, cells[j].slot, j); assert On(w', cells[j].slot, j); }
    }
    forall j, d | 0 <= d <= OVERFLOW && j in rest ensures j !in w'.chains[d] {
      assert !On(w, d, j);
      assert !On(w', d, j);
    }
  }

  /** wheel_insert_slot: linking an unscheduled record first realises its insertion. */
  lemma LinkRealises(heads: seq<int>, cells: seq<Cell>, w: Wheel, rest: seq<nat>, i: nat, c: nat)
    requires Realises(heads, cells, w, rest) && i < |cells| && cells[i].rec.inUse && i !in rest
    requires c <= OVERFLOW && cells[i].slot == NONE
    ensures |heads| == SLOTS + 1 && Bound(heads[c], cells)
    ensures var (heads', cells') := LinkFirst(heads, cells, i, c);
            Realises(heads', cells', Insert(w, i, c), rest)
  {
    NotChained(heads, cells, w, rest, i);
    InsertOk(w, i, c);
    ShapeOf(w);
    assert heads[c] == HeadOf(w.chains[c]) && Threaded(cells, c, w.chains[c]) && Distinct(w.chains[c]);
    assert !On(w, c, i);
    hide WheelOk, SlotsRight, AllThreaded, Apart, Walkable, Threaded, HeadOf, Distinct;
    LinkFirstThreads(heads, cells, c, w.chains[c], i);
    LinkAllThreaded(heads, cells, w, c, i);
    var cells' := LinkFirst(heads, cells, i, c).1;
    hide LinkFirst, Insert;
    RecordsSame(cells, cells');
    LeavesRestAlone(cells, cells', w, rest, c, i);
    SlotsAfter(cells, cells', w, Insert(w, i, c), rest, i);
  }

  lemma LinkAllThreaded(heads: seq<int>, cells: seq<Cell>, w: Wheel, c: nat, i: nat)
    requires WheelOk(w) && AllThreaded(heads, cells, w.chains) && c <= OVERFLOW
    requires i < |cells| && forall d :: !On(w, d, i)
    ensures Bound(heads[c], cells)
    ensures var (heads', cells') := LinkFirst(heads, cells, i, c); AllThreaded(heads', cells', Insert(w, i, c).chains)
  {
    assert !On(w, c, i);
    LinkFirstThreads(heads, cells, c, w.chains[c], i);
    var (heads', cells') := LinkFirst(heads, cells, i, c);
    var w' := Insert(w, i, c);
    hide LinkFirst;
    forall d | 0 <= d <= OVERFLOW ensures heads'[d] == HeadOf(w'.chains[d]) && Threaded(cells', d, w'.chains[d]) {
      if d != c {
        var framed := cells'[i := cells[i]];
        ThreadedOff(cells, framed, w, c, d);
        assert !On(w, d, i);
        forall j | j in w.chains[d] ensures j < |cells| && cells'[j] == framed[j] {
          var p :| 0 <= p < |w.chains[d]| && w.chains[d][p] == j;
        }
        ThreadedFrame(framed, cells', d, w.chains[d]);
      }
    }
  }

  /** A record without a slot is on no chain. */
  lemma NotChained(heads: seq<int>, cells: seq<Cell>, w: Wheel, rest: seq<nat>, i: nat)
    requires Realises(heads, cells, w, rest) && i < |cells| && cells[i].slot == NONE
    ensures forall c :: !On(w, c, i)
    ensures Detach(w, i) == w
  {
    forall c | 0 <= c <= OVERFLOW ensures i !in w.chains[c] {
      forall p | 0 <= p < |w.chains[c]| ensures w.chains[c][p] != i {
        assert Threaded(cells, c, w.chains[c]);
      }
    }
    forall c | 0 <= c <= OVERFLOW ensures Without(w.chains[c], i) == w.chains[c] {
      assert !On(w, c, i);
      WithoutAbsent(w.chains[c], i);
    }
    assert Detach(w, i).chains == w.chains;
  }

  // ------------------------------------------------------------------- class

  class WheelTable {
    const heads: array<int>
    const cells: array<Cell>
    const perSlot: nat
    const hz: nat
    var current: nat
    var lastTick: nat
    ghost var chains: seq<seq<nat>>

    ghost function View(): Wheel
      reads this, heads, cells
    {
      Wheel(current, lastTick, perSlot, hz, chains, Records(cells[..]))
    }

    /** Everything is linked except the records of a chain a tick is walking. */
    ghost predicate ValidExcept(rest: seq<nat>)
      reads this, heads, cells
    {
      Realises(heads[..], cells[..], View(), rest)
    }

    ghost predicate Valid()
      reads this, heads, cells
    {
      ValidExcept([])
    }

    /** tcp_timer_init over a store of `capacity` unused records. */
    constructor (capacity: nat, tscHz: nat, now: nat)
      requires tscHz >= 1000
      ensures Valid() && Initial(View()) && |View().records| == capacity && current == 0 && lastTick == now
      ensures View().hz == tscHz && View().perSlot == tscHz / 1000    // slots of 1 ms
      ensures fresh(heads) && fresh(cells)
    {
      heads := new int[SLOTS + 1](_ => NONE);
      cells := new Cell[capacity](_ => ZEROED);
      perSlot := tscHz / 1000;
      hz := tscHz;
      current, lastTick := 0, now;
      chains := seq(SLOTS + 1, _ => []);
      new;
      assert forall c: int, i: nat :: !On(View(), c, i);
    }

    /** The link updates of wheel_remove. */
    method UnlinkCells(i: nat)
      requires i < cells.Length && 0 <= cells[i].slot < heads.Length
      requires Bound(cells[i].prev, cells[..]) && Bound(cells[i].next, cells[..])
      modifies heads, cells
      ensures (heads[..], cells[..]) == old(Unlink(heads[..], cells[..], i))
    {
      var t := cells[i];
      if t.prev == NONE {
        heads[t.slot] := t.next;
      } else {
        cells[t.prev] := cells[t.prev].(next := t.next);
      }
      if t.next != NONE {
        cells[t.next] := cells[t.next].(prev := t.prev);
      }
      cells[i] := cells[i].(slot := NONE, next := NONE, prev := NONE);
    }

    /** wheel_remove */
    method Remove(i: nat, ghost rest: seq<nat>)
      requires ValidExcept(rest) && i < cells.Length && cells[i].rec.inUse && i !in rest
      modifies this`chains, heads, cells
      ensures ValidExcept(rest) && View() == old(Detach(View(), i)) && cells[i].slot == NONE
    {
      if cells[i].slot == NONE {
        NotChained(heads[..], cells[..], View(), rest, i);
      } else {
        RemoveScheduled(i, rest);
      }
    }

    method RemoveScheduled(i: nat, ghost rest: seq<nat>)
      requires ValidExcept(rest) && i < cells.Length && cells[i].rec.inUse && i !in rest && cells[i].slot != NONE
      modifies this`chains, heads, cells
      ensures ValidExcept(rest) && View() == old(Detach(View(), i)) && cells[i].slot == NONE
    {
      ghost var h, c, w := heads[..], cells[..], View();
      UnlinkRealises(h, c, w, rest, i);
      UnlinkRecords(h, c, i);
      ghost var target := Detach(w, i);
      ghost var r := Unlink(h, c, i);
      hide Realises, Detach, Shape, WheelOk, Records, Linked, Bound, Unlink;
      UnlinkCells(i);
      chains := target.chains;
      assert heads[..] == r.0 && cells[..] == r.1;
      assert View() == target;
    }

    /** wheel_insert_slot */
    method InsertSlot(i: nat, slot: nat, ghost rest: seq<nat>)
      requires ValidExcept(rest) && i < cells.Length && cells[i].rec.inUse && i !in rest
      requires slot <= OVERFLOW && cells[i].slot == NONE
      modifies this`chains, heads, cells
      ensures ValidExcept(rest) && View() == old(Insert(View(), i, slot))
    {
      ghost var w := View();
      ghost var h, c := heads[..], cells[..];
      LinkRealises(h, c, w, rest, i, slot);
      assert |h| == SLOTS + 1;
      hide Realises, Linked;
      var head := heads[slot];
      cells[i] := cells[i].(prev := NONE, next := head, slot := slot);
      if head != NONE {
        cells[head] := cells[head].(prev := i);
      }
      heads[slot] := i;
      chains := Insert(w, i, slot).chains;
      assert heads[..] == LinkFirst(h, c, i, slot).0;
      assert cells[..] == LinkFirst(h, c, i, slot).1;
      LinkRecords(h, c, i, slot);
    }

    /** tcp_timer_schedule */
    method ScheduleAt(i: nat, deadline: nat, now: nat, ghost rest: seq<nat>)
      requires ValidExcept(rest) && i < cells.Length && cells[i].rec.inUse && i !in rest
      modifies this`chains, heads, cells
      ensures ValidExcept(rest) && View() == old(Schedule(View(), i, deadline, now))
    {
      RealisesShape(heads[..], cells[..], View(), rest);
      hide Realises, Target, Detach, Insert, Shape;
      var slot := SlotFor(deadline, now);
      Remove(i, rest);
      InsertSlot(i, slot, rest);
    }

    /** The chain for a deadline: the overflow chain beyond one revolution. */
    method SlotFor(deadline: nat, now: nat) returns (slot: nat)
      requires Shape(View())
      ensures slot == Target(View(), deadline, now)
    {
      var ahead := SlotsAhead(deadline, now, perSlot);
      if ahead >= SLOTS {
        slot := OVERFLOW;
      } else {
        slot := (current + ahead) % SLOTS;
      }
    }

    /** tcp_timer_resched */
    method Reschedule(i: nat, t0: nat, t1: nat, ghost rest: seq<nat>)
      requires ValidExcept(rest) && i < cells.Length && cells[i].rec.inUse && i !in rest
      modifies this`chains, heads, cells
      ensures ValidExcept(rest) && View() == old(Resched(View(), i, t0, t1))
    {
      RealisesShape(heads[..], cells[..], View(), rest);
      hide Realises, Schedule, Detach, Earliest;
      var d := Earliest(cells[i].rec.timers, hz, t0);
      match d
      case None => Remove(i, rest);
      case Some(deadline) => ScheduleAt(i, deadline, t1, rest);
    }

    /** tcb_free: off the wheel, then the record is zeroed. */
    method Free(i: nat, ghost rest: seq<nat>)
      requires ValidExcept(rest) && i < cells.Length && cells[i].rec.inUse && i !in rest
      modifies this`chains, heads, cells
      ensures ValidExcept(rest) && View() == old(Release(View(), i))
    {
      RealisesShape(heads[..], cells[..], View(), rest);
      Remove(i, rest);
      ghost var w, c := View(), cells[..];
      hide Realises;
      ZeroRealises(heads[..], c, w, rest, i);
      cells[i] := ZEROED;
      assert cells[..] == c[i := ZEROED];
    }

    /** tcb_alloc: whatever a freed record's links say, a new one is on no chain. */
    method OpenRecord(i: nat)
      requires Valid() && i < cells.Length && !cells[i].rec.inUse
      modifies cells
      ensures Valid() && old(Shape(View())) && View() == old(Opened(View(), i)) && cells[i].slot == NONE
    {
      ghost var w, c := View(), cells[..];
      RealisesShape(heads[..], c, w, []);
      OpenRealises(heads[..], c, w, i);
      hide Realises;
      cells[i] := OPENED;
      assert cells[..] == c[i := OPENED];
    }

    /** The wheel part of tcb_store_reset: every head cleared and every record zeroed. */
    method ResetStore()
      requires Valid()
      modifies this`chains, heads, cells
      ensures Valid() && View() == old(Cleared(View()))
    {
      ghost var w := View();
      RealisesShape(heads[..], cells[..], w, []);
      ClearedRealises(heads[..], cells[..], w);
      hide Realises;
      forall c | 0 <= c < heads.Length { heads[c] := NONE; }
      forall i | 0 <= i < cells.Length { cells[i] := ZEROED; }
      chains := seq(SLOTS + 1, _ => []);
      assert heads[..] == seq(SLOTS + 1, _ => NONE) && cells[..] == seq(cells.Length, _ => ZEROED);
      assert Records(cells[..]) == Cleared(w).records;
    }

    method SetDeadlines(i: nat, timers: Timers, ghost rest: seq<nat>)
      requires ValidExcept(rest) && i < cells.Length && cells[i].rec.inUse && i !in rest
      modifies cells
      ensures ValidExcept(rest)
      ensures View() == old(View()).(records := old(View()).records[i := Record(true, timers)])
    {
      ghost var w, c := View(), cells[..];
      hide Realises;
      RecordRealises(heads[..], c, w, rest, i, Record(true, timers));
      cells[i] := cells[i].(rec := Record(true, timers));
      assert cells[..] == c[i := c[i].(rec := Record(true, timers))];
    }

    /** timer_fire: the handlers' work on the visited record, until it is released. */
    method FireTimers(i: nat, acts: seq<Action>, ghost rest: seq<nat>)
      requires ValidExcept(rest) && i < cells.Length && i !in rest
      modifies this`chains, heads, cells
      ensures ValidExcept(rest) && View() == old(Fire(View(), i, acts))
    {
      RealisesShape(heads[..], cells[..], View(), rest);
      hide Realises, Fire, Shape;
      ghost var target := Fire(View(), i, acts);
      var k := 0;
      assert acts[0..] == acts;
      while k < |acts| && cells[i].rec.inUse
        invariant k <= |acts| && ValidExcept(rest) && Shape(View())
        invariant Fire(View(), i, acts[k..]) == target
      {
        FireFirst(View(), i, acts[k..]);
        assert acts[k..][0] == acts[k] && acts[k..][1..] == acts[k + 1..];
        FireAct(i, acts[k], rest);
        k := k + 1;
      }
      FireEnds(View(), i, acts[k..]);
    }

    /** One thing a callback does to the visited record. */
    method FireAct(i: nat, a: Action, ghost rest: seq<nat>)
      requires ValidExcept(rest) && i < cells.Length && i !in rest && cells[i].rec.inUse
      modifies this`chains, heads, cells
      ensures ValidExcept(rest) && old(Shape(View())) && Shape(View()) && View() == old(Fire(View(), i, [a]))
    {
      RealisesShape(heads[..], cells[..], View(), rest);
      FireSingle(View(), i, a);
      hide Realises, Resched, Release, Fire;
      match a {
        case SetTimers(t) => SetDeadlines(i, t, rest);
        case DoResched(t0, t1) => Reschedule(i, t0, t1, rest);
        case DoRelease => Free(i, rest);
      }
    }

    /** The walk of a detached chain: each record is unlinked, fired, and rescheduled if still in use. */
    method Walk(first: int, react: Reactions, ghost chain: seq<nat>)
      requires ValidExcept(chain) && first == HeadOf(chain)
      requires forall p :: 0 <= p < |chain| ==> chain[p] < cells.Length
      modifies this`chains, heads, cells
      ensures Valid() && View() == old(VisitAll(View(), chain, react))
    {
      RealisesShape(heads[..], cells[..], View(), chain);
      ghost var target := VisitAll(View(), chain, react);
      ghost var rest: seq<nat> := chain;
      var idx := first;
      while idx != NONE
        invariant idx == HeadOf(rest) && ValidExcept(rest) && Shape(View())
        invariant forall p :: 0 <= p < |rest| ==> rest[p] < cells.Length
        invariant VisitAll(View(), rest, react) == target
        decreases |rest|
      {
        hide Realises, Visit;
        var next := WalkOne(idx, react, rest);
        idx, rest := next, rest[1..];
      }
    }

    method WalkOne(idx: nat, react: Reactions, ghost rest: seq<nat>) returns (next: int)
      requires ValidExcept(rest) && rest != [] && idx == rest[0] < cells.Length
      modifies this`chains, heads, cells
      ensures next == HeadOf(rest[1..]) && ValidExcept(rest[1..]) && Shape(View())
      ensures View() == old(RealisedVisit(View(), idx, react(idx)))
    {
      ghost var c, w := cells[..], View();
      RealisesShape(heads[..], c, w, rest);
      WalkStep(heads[..], c, w, rest);
      hide Realises, Visit, Fire, Shape;
      next := cells[idx].next;
      cells[idx] := cells[idx].(slot := NONE, next := NONE, prev := NONE);
      assert cells[..] == c[idx := c[idx].(slot := NONE, next := NONE, prev := NONE)];
      assert View() == w by { assert Records(cells[..]) == Records(c); }
      VisitOne(idx, react(idx), rest[1..]);
    }

    method VisitOne(i: nat, r: Reaction, ghost rest: seq<nat>)
      requires ValidExcept(rest) && i < cells.Length && i !in rest
      modifies this`chains, heads, cells
      ensures ValidExcept(rest) && Shape(View()) && View() == old(Visit(View(), i, r))
    {
      RealisesShape(heads[..], cells[..], View(), rest);
      hide Realises, Fire, Resched;
      FireTimers(i, r.acts, rest);
      if cells[i].rec.inUse { Reschedule(i, r.t0, r.t1, rest); }
    }

    /** The next slot's chain taken off its head. */
    method TurnSlot() returns (first: int, ghost visited: seq<nat>)
      requires Valid()
      modifies this, heads
      ensures ValidExcept(visited) && first == HeadOf(visited)
      ensures old(RealisesOk(View())) && visited == old(Due(View())) && View() == old(Turn(View()))
      ensures forall p :: 0 <= p < |visited| ==> visited[p] < cells.Length
    {
      ghost var w, h, c := View(), heads[..], cells[..];
      RealisesShape(h, c, w, []);
      hide Realises, WheelOk, Records, HeadOf, Shape, NextSlot;
      RealisesGives(h, c, w);
      TurnRealises(h, c, w);
      current := NextSlot(current);
      first := heads[current];
      visited := chains[current];
      heads[current] := NONE;
      chains := chains[current := []];
      assert heads[..] == h[current := NONE] && cells[..] == c;
      assert View() == Turn(w) && visited == Due(w);
    }

    /** One slot forward: the slot's chain is detached and walked. */
    method AdvanceSlot(react: Reactions) returns (ghost visited: seq<nat>)
      requires Valid()
      modifies this, heads, cells
      ensures Valid() && RealisesOk(View())
      ensures old(RealisesOk(View())) && visited == old(Due(View())) && View() == old(Advance(View(), react))
    {
      hide Realises, WheelOk, VisitAll, Turn;
      var idx: int;
      idx, visited := TurnSlot();
      Walk(idx, react, visited);
      RealisesGives(heads[..], cells[..], View());
    }

    /** The overflow chain is detached and every record on it re-hashed. */
    method RehashOverflow(times: nat -> (nat, nat))
      requires Valid()
      modifies this`chains, heads, cells
      ensures Valid() && old(RealisesOk(View())) && View() == old(DrainOverflow(View(), times))
    {
      ghost var w, h, c := View(), heads[..], cells[..];
      assert WheelOk(w);
      UnhookRealises(h, c, w);
      RealisesShape(h, c, w, []);
      hide Realises, WheelOk, VisitAll;
      var idx := heads[OVERFLOW];
      ghost var chain := chains[OVERFLOW];
      heads[OVERFLOW] := NONE;
      chains := chains[OVERFLOW := []];
      assert heads[..] == h[OVERFLOW := NONE];
      assert View() == Unhook(w);
      Walk(idx, Rehash(times), chain);
    }

    /** How many slots a tick advances: elapsed whole slots, cut to 32 bits and to one revolution. */
    method SlotsDue(now: nat) returns (n: nat)
      requires Shape(View())
      ensures n == SlotsToAdvance(View(), now)
    {
      var elapsed := if now < lastTick then 0 else now - lastTick;
      n := (elapsed / perSlot) % U32;
      if n > SLOTS { n := SLOTS; }
    }

    /** tcp_timer_tick up to the delayed-ACK flush. */
    method TickWheel(now: nat, reacts: nat -> Reactions, times: nat -> (nat, nat))
        returns (ghost visits: seq<seq<nat>>)
      requires Valid()
      modifies this, heads, cells
      ensures Valid() && old(RealisesOk(View()))
      ensures (View(), visits) == old(Tick(View(), now, reacts, times))
    {
      ghost var w := View();
      hide Realises, WheelOk, Shape, AdvanceMany, DrainOverflow, SlotsToAdvance, Records;
      RealisesGives(heads[..], cells[..], w);
      visits := [];
      var n := SlotsDue(now);
      if n == 0 { return; }
      TickedRealises(heads[..], cells[..], w, n);
      lastTick := lastTick + n * perSlot;
      assert View() == Ticked(w, n);
      visits := SlotLoop(n, reacts);
      if current < n { RehashOverflow(times); }
    }


    method SlotLoop(n: nat, reacts: nat -> Reactions) returns (ghost visits: seq<seq<nat>>)
      requires Valid() && n <= SLOTS
      modifies this, heads, cells
      ensures Valid() && RealisesOk(View()) && old(RealisesOk(View()))
      ensures (View(), visits) == old(AdvanceMany(View(), n, reacts, 0))
    {
      hide Realises, WheelOk, Shape, AdvanceMany, LoopAt, Records;
      RealisesGives(heads[..], cells[..], View());
      ghost var whole := AdvanceMany(View(), n, reacts, 0);
      visits := [];
      LoopStart(whole);
      var s := 0;
      while s < n
        invariant s <= n && Valid() && RealisesOk(View())
        invariant LoopAt(whole, visits, AdvanceMany(View(), n - s, reacts, s))
      {
        visits := SlotStep(n, s, reacts, whole, visits);
        s := s + 1;
      }
      LoopEnd(whole, visits, View(), reacts, s);
    }

    method SlotStep(n: nat, s: nat, reacts: nat -> Reactions,
                    ghost whole: (Wheel, seq<seq<nat>>), ghost before: seq<seq<nat>>)
        returns (ghost visits: seq<seq<nat>>)
      requires Valid() && RealisesOk(View()) && s < n <= SLOTS
      requires LoopAt(whole, before, AdvanceMany(View(), n - s, reacts, s))
      modifies this, heads, cells
      ensures Valid() && RealisesOk(View())
      ensures LoopAt(whole, visits, AdvanceMany(View(), n - (s + 1), reacts, s + 1))
    {
      ghost var v := View();
      hide Realises, WheelOk, Advance, Due, Shape, AdvanceMany, LoopAt, Records;
      ghost var visited := AdvanceSlot(reacts(s));
      LoopStep(whole, before, v, n - s, reacts, s);
      visits := before + [visited];
    }
  }

  lemma UnlinkRecords(heads: seq<int>, cells: seq<Cell>, i: nat)
    requires i < |cells| && 0 <= cells[i].slot < |heads|
    requires Bound(cells[i].prev, cells) && Bound(cells[i].next, cells)
    ensures Records(Unlink(heads, cells, i).1) == Records(cells)
  {
  }

  lemma LinkRecords(heads: seq<int>, cells: seq<Cell>, i: nat, c: nat)
    requires i < |cells| && c < |heads| && Bound(heads[c], cells)
    ensures Records(LinkFirst(heads, cells, i, c).1) == Records(cells)
  {
  }

  /** Visit, for a wheel of the right shape. */
  ghost function RealisedVisit(w: Wheel, i: nat, r: Reaction): Wheel {
    if Shape(w) && i < |w.records| then Visit(w, i, r) else w
  }

  lemma FireFirst(w: Wheel, i: nat, acts: seq<Action>)
    requires Shape(w) && i < |w.records| && acts != [] && w.records[i].inUse
    ensures Shape(Fire(w, i, [acts[0]])) && Fire(w, i, acts) == Fire(Fire(w, i, [acts[0]]), i, acts[1..])
  {
    hide Resched, Release;
    assert [acts[0]][1..] == [];
  }

  lemma FireSingle(w: Wheel, i: nat, a: Action)
    requires Shape(w) && i < |w.records| && w.records[i].inUse
    ensures a.SetTimers? ==> Fire(w, i, [a]) == w.(records := w.records[i := Record(true, a.timers)])
    ensures a.DoResched? ==> Fire(w, i, [a]) == Resched(w, i, a.t0, a.t1)
    ensures a.DoRelease? ==> Fire(w, i, [a]) == Release(w, i)
  {
    hide Resched, Release;
    assert [a][1..] == [];
  }

  lemma FireEnds(w: Wheel, i: nat, acts: seq<Action>)
    requires Shape(w) && i < |w.records| && (acts == [] || !w.records[i].inUse)
    ensures Fire(w, i, acts) == w
  {
  }

  lemma RealisesShape(heads: seq<int>, cells: seq<Cell>, w: Wheel, rest: seq<nat>)
    requires Realises(heads, cells, w, rest)
    ensures Shape(w) && |heads| == SLOTS + 1 && |w.records| == |cells|
    ensures forall p :: 0 <= p < |rest| ==> rest[p] < |cells|
  {
  }

  /** Zeroing a record that is on no chain. */
  lemma ZeroRealises(heads: seq<int>, cells: seq<Cell>, w: Wheel, rest: seq<nat>, i: nat)
    requires Realises(heads, cells, w, rest) && i < |cells| && cells[i].slot == NONE && i !in rest
    ensures Realises(heads, cells[i := ZEROED], w.(records := w.records[i := Record(false, DISARMED)]), rest)
  {
    var cells' := cells[i := ZEROED];
    var w' := w.(records := w.records[i := Record(false, DISARMED)]);
    NotChained(heads, cells, w, rest, i);
    assert forall c: int, j: nat :: On(w', c, j) <==> On(w, c, j);
    assert WheelOk(w') && Records(cells') == w'.records;
    OthersAllThreaded(heads, cells, cells', w, i);
    ShapeOf(w);
    hide WheelOk, AllThreaded;
    LeavesRestAlone(cells, cells', w, rest, OVERFLOW, i);
  }

  /** A record that is not in use is on no chain, so it may be set up freely. */
  lemma OpenRealises(heads: seq<int>, cells: seq<Cell>, w: Wheel, i: nat)
    requires Realises(heads, cells, w, []) && i < |cells| && !cells[i].rec.inUse
    ensures i < |w.records| && Realises(heads, cells[i := OPENED], Opened(w, i), [])
  {
    var cells' := cells[i := OPENED];
    assert forall c :: !On(w, c, i);
    OpenOk(w, i);
    assert Records(cells') == Opened(w, i).records;
    OthersAllThreaded(heads, cells, cells', w, i);
    hide WheelOk, AllThreaded;
    assert SlotsRight(cells', w.chains, []);
  }

  lemma ClearedRealises(heads: seq<int>, cells: seq<Cell>, w: Wheel)
    requires Realises(heads, cells, w, [])
    ensures Realises(seq(SLOTS + 1, _ => NONE), seq(|cells|, _ => ZEROED), Cleared(w), [])
  {
    ClearedOk(w);
    var cells' := seq(|cells|, _ => ZEROED);
    assert Records(cells') == Cleared(w).records;
    hide WheelOk;
  }

  lemma OthersAllThreaded(heads: seq<int>, cells: seq<Cell>, cells': seq<Cell>, w: Wheel, i: nat)
    requires WheelOk(w) && AllThreaded(heads, cells, w.chains) && |w.records| == |cells'| == |cells|
    requires forall c :: !On(w, c, i)
    requires forall j :: 0 <= j < |cells| && j != i ==> cells'[j] == cells[j]
    ensures AllThreaded(heads, cells', w.chains)
  {
    ShapeOf(w);
    hide WheelOk, Threaded;
    forall c | 0 <= c <= OVERFLOW ensures Threaded(cells', c, w.chains[c]) {
      assert !On(w, c, i);
      OthersThreaded(cells, cells', w, c, i);
    }
  }

  /** Changing the timers of a live record moves no link. */
  lemma RecordRealises(heads: seq<int>, cells: seq<Cell>, w: Wheel, rest: seq<nat>, i: nat, rec: Record)
    requires Realises(heads, cells, w, rest) && i < |cells| && rec.inUse && cells[i].rec.inUse
    ensures Realises(heads, cells[i := cells[i].(rec := rec)], w.(records := w.records[i := rec]), rest)
  {
    var cells' := cells[i := cells[i].(rec := rec)];
    var w' := w.(records := w.records[i := rec]);
    assert forall c: int, j: nat :: On(w', c, j) <==> On(w, c, j);
    assert Records(cells') == w'.records;
    forall c | 0 <= c <= OVERFLOW ensures Threaded(cells', c, w.chains[c]) {
      forall p: nat | p < |w.chains[c]| ensures ThreadAt(cells', c, w.chains[c], p) {
        assert ThreadAt(cells, c, w.chains[c], p);
      }
    }
  }

  /** Unlinking the first record of the walked chain. */
  lemma WalkStep(heads: seq<int>, cells: seq<Cell>, w: Wheel, rest: seq<nat>)
    requires Realises(heads, cells, w, rest) && rest != []
    ensures rest[0] < |cells| && cells[rest[0]].next == HeadOf(rest[1..]) && rest[0] !in rest[1..]
    ensures Realises(heads, cells[rest[0] := cells[rest[0]].(slot := NONE, next := NONE, prev := NONE)], w, rest[1..])
  {
    var i := rest[0];
    assert rest[0] < |cells| && cells[rest[0]].next == NextIn(rest, 0) && i in rest;
    var cells' := cells[i := cells[i].(slot := NONE, next := NONE, prev := NONE)];
    assert forall c :: !On(w, c, i);
    hide WheelOk, AllThreaded, SlotsRight, Apart, Walkable;
    RecordsSame(cells, cells');
    WalkableTail(cells, cells', rest);
    OthersAllThreaded(heads, cells, cells', w, i);
    WalkSlots(cells, cells', w, rest);
  }

  lemma WalkSlots(cells: seq<Cell>, cells': seq<Cell>, w: Wheel, rest: seq<nat>)
    requires rest != [] && rest[0] < |cells| && SlotsRight(cells, w.chains, rest) && Apart(w.chains, rest)
    requires cells' == cells[rest[0] := cells[rest[0]].(slot := NONE, next := NONE, prev := NONE)]
    ensures SlotsRight(cells', w.chains, rest[1..]) && Apart(w.chains, rest[1..])
  {
    forall j | 0 <= j < |cells'| && cells'[j].rec.inUse && j !in rest[1..] && cells'[j].slot != NONE
      ensures 0 <= cells'[j].slot <= OVERFLOW && j in w.chains[cells'[j].slot]
    {
      assert j !in rest;
    }
    forall j, c | 0 <= c <= OVERFLOW && j in rest[1..] ensures j !in w.chains[c] {
      assert j in rest;
    }
  }

  lemma OthersThreaded(cells: seq<Cell>, cells': seq<Cell>, w: Wheel, c: int, i: nat)
    requires WheelOk(w) && |w.records| == |cells'| == |cells| && 0 <= c <= OVERFLOW && i !in w.chains[c]
    requires Threaded(cells, c, w.chains[c])
    requires forall j :: 0 <= j < |cells| && j != i ==> cells'[j] == cells[j]
    ensures Threaded(cells', c, w.chains[c])
  {
    forall j | j in w.chains[c] ensures j < |cells| && cells'[j] == cells[j] { assert On(w, c, j); }
    ThreadedFrame(cells, cells', c, w.chains[c]);
  }

  lemma WalkableTail(cells: seq<Cell>, cells': seq<Cell>, rest: seq<nat>)
    requires Walkable(cells, rest) && rest != [] && |cells'| == |cells|
    requires forall j :: 0 <= j < |cells| && j != rest[0] ==> cells'[j] == cells[j]
    ensures Walkable(cells', rest[1..]) && rest[0] !in rest[1..]
  {
    var tail := rest[1..];
    forall p | 0 <= p < |tail|
      ensures tail[p] < |cells'| && cells'[tail[p]].rec.inUse && cells'[tail[p]].next == NextIn(tail, p)
    {
      assert tail[p] == rest[p + 1] && rest[p + 1] != rest[0];
    }
  }

  ghost predicate RealisesOk(w: Wheel) { WheelOk(w) && Shape(w) }

  lemma RealisesGives(heads: seq<int>, cells: seq<Cell>, w: Wheel)
    requires Realises(heads, cells, w, [])
    ensures RealisesOk(w)
  {
    hide Records, Linked;
  }

  /** Where the slot loop stands: the visits so far and the rest of the run make the whole. */
  ghost predicate LoopAt(whole: (Wheel, seq<seq<nat>>), visits: seq<seq<nat>>, rest: (Wheel, seq<seq<nat>>)) {
    rest.0 == whole.0 && visits + rest.1 == whole.1
  }

  lemma LoopStart(whole: (Wheel, seq<seq<nat>>))
    ensures LoopAt(whole, [], whole)
  {
    assert [] + whole.1 == whole.1;
  }

  lemma LoopEnd(whole: (Wheel, seq<seq<nat>>), visits: seq<seq<nat>>, w: Wheel, reacts: nat -> Reactions, s: nat)
    requires WheelOk(w) && LoopAt(whole, visits, AdvanceMany(w, 0, reacts, s))
    ensures whole == (w, visits)
  {
    hide WheelOk;
    assert visits + [] == visits;
  }

  lemma LoopStep(whole: (Wheel, seq<seq<nat>>), visits: seq<seq<nat>>, w: Wheel, n: nat, reacts: nat -> Reactions, s: nat)
    requires WheelOk(w) && 0 < n <= SLOTS && LoopAt(whole, visits, AdvanceMany(w, n, reacts, s))
    ensures LoopAt(whole, visits + [Due(w)], AdvanceMany(Advance(w, reacts(s)), n - 1, reacts, s + 1))
  {
    ShapeOf(w);
    AdvanceManyStep(w, n, reacts, s);
    hide WheelOk, Advance, AdvanceMany, Due;
    var r := AdvanceMany(Advance(w, reacts(s)), n - 1, reacts, s + 1);
    assert visits + ([Due(w)] + r.1) == (visits + [Due(w)]) + r.1;
  }

  lemma AdvanceManyStep(w: Wheel, n: nat, reacts: nat -> Reactions, s: nat)
    requires WheelOk(w) && 0 < n <= SLOTS
    ensures var r := AdvanceMany(Advance(w, reacts(s)), n - 1, reacts, s + 1);
            AdvanceMany(w, n, reacts, s) == (r.0, [Due(w)] + r.1)
  {
    hide WheelOk, Advance;
  }

  lemma TickedRealises(heads: seq<int>, cells: seq<Cell>, w: Wheel, n: nat)
    requires Realises(heads, cells, w, [])
    ensures Realises(heads, cells, Ticked(w, n), [])
  {
    TickedOk(w, n);
  }

  lemma TurnRealises(heads: seq<int>, cells: seq<Cell>, w: Wheel)
    requires Realises(heads, cells, w, [])
    ensures var c := NextSlot(w.current);
            && heads[c] == HeadOf(Due(w))
            && Realises(heads[c := NONE], cells, Turn(w), Due(w))
    ensures forall p :: 0 <= p < |Due(w)| ==> Due(w)[p] < |cells|
  {
    TurnOk(w);
    var c := NextSlot(w.current);
    assert heads[c] == HeadOf(Due(w)) && Turn(w).chains == w.chains[c := []] && Turn(w).records == w.records;
    hide WheelOk, Realises, Turn;
    BreakOff(heads, cells, w, Turn(w), c);
  }

  lemma UnhookRealises(heads: seq<int>, cells: seq<Cell>, w: Wheel)
    requires Realises(heads, cells, w, [])
    ensures heads[OVERFLOW] == HeadOf(w.chains[OVERFLOW])
    ensures Realises(heads[OVERFLOW := NONE], cells, Unhook(w), w.chains[OVERFLOW])
    ensures forall p :: 0 <= p < |w.chains[OVERFLOW]| ==> w.chains[OVERFLOW][p] < |cells|
  {
    UnhookOk(w);
    BreakOff(heads, cells, w, Unhook(w), OVERFLOW);
  }

  /** Detaching a whole chain by clearing its head. */
  lemma BreakOff(heads: seq<int>, cells: seq<Cell>, w: Wheel, w': Wheel, c: nat)
    requires Realises(heads, cells, w, []) && c <= OVERFLOW
    requires WheelOk(w') && w'.records == w.records && w'.chains == w.chains[c := []]
    ensures Realises(heads[c := NONE], cells, w', w.chains[c])
  {
    BecomesWalkable(heads, cells, w, c);
    BecomesApart(w, w', c);
    assert AllThreaded(heads[c := NONE], cells, w'.chains);
    hide WheelOk, AllThreaded, Apart, Walkable;
  }

  lemma BecomesWalkable(heads: seq<int>, cells: seq<Cell>, w: Wheel, c: nat)
    requires WheelOk(w) && w.records == Records(cells) && AllThreaded(heads, cells, w.chains) && c <= OVERFLOW
    ensures Walkable(cells, w.chains[c])
  {
    var chain := w.chains[c];
    assert Threaded(cells, c, chain) && Distinct(chain);
    forall p | 0 <= p < |chain|
      ensures chain[p] < |cells| && cells[chain[p]].rec.inUse && cells[chain[p]].next == NextIn(chain, p)
    {
      assert On(w, c, chain[p]);
      assert ThreadAt(cells, c, chain, p);
    }
  }

  lemma BecomesApart(w: Wheel, w': Wheel, c: nat)
    requires WheelOk(w) && c <= OVERFLOW && w'.chains == w.chains[c := []]
    ensures Apart(w'.chains, w.chains[c])
  {
    forall i, d | 0 <= d <= OVERFLOW && i in w.chains[c] ensures i !in w'.chains[d] {
      assert On(w, c, i);
      if d != c { assert On(w, d, i) ==> d == c; }
    }
  }
}
