/**
 * The RSS queue-affinity filter of tcp_port_pool.c: every ephemeral port stays
 * with the one worker whose receive queue its replies hash to. The hash and the
 * redirection table are an arbitrary function from ports to queues.
 */
module RssFilter {
  import opened Basics
  import opened PortBitmap
  import opened PortPoolSpec
  import opened PortPool

  /** The bitmaps of one worker that the filter rewrites. */
  datatype Maps = Maps(shared: IpPool, slots: seq<IpPool>)

  ghost predicate MapsOk(m: Maps) {
    IpPoolOk(m.shared) && forall s :: 0 <= s < |m.slots| ==> IpPoolOk(m.slots[s])
  }

  /** Only the words of the shared map and of claimed slots may differ. */
  ghost predicate SameButMaps(m: Maps, r: Maps) {
    && r.shared == m.shared.(words := r.shared.words) && |r.slots| == |m.slots|
    && forall s :: 0 <= s < |m.slots| ==>
         r.slots[s] == m.slots[s].(words := r.slots[s].words) && (m.slots[s].ip == 0 ==> r.slots[s] == m.slots[s])
  }

  /** The worker a port belongs to. */
  function Owner(queueOf: nat -> nat, workers: nat, bit: nat): (w: nat)
    requires workers > 0
    ensures w < workers
  {
    var q := queueOf(bit);
    if q >= workers then q % workers else q
  }

  /** Bits below `upTo` of a bitmap are exactly the worker's own. */
  ghost predicate FilteredTo(words: seq<nat>, queueOf: nat -> nat, workers: nat, w: nat, upTo: nat)
    requires IsMap(words) && workers > 0
  {
    forall b: nat :: b < upTo && b < PORTS ==> (b in Ports(words) <==> Owner(queueOf, workers, b) == w)
  }

  ghost predicate MapsFilteredTo(m: Maps, queueOf: nat -> nat, workers: nat, w: nat, upTo: nat)
    requires MapsOk(m) && workers > 0
  {
    && FilteredTo(m.shared.words, queueOf, workers, w, upTo)
    && forall s :: 0 <= s < |m.slots| && m.slots[s].ip != 0 ==> FilteredTo(m.slots[s].words, queueOf, workers, w, upTo)
  }

  method Mark(words: seq<nat>, bit: nat, mine: bool) returns (r: seq<nat>)
    requires IsMap(words) && bit < PORTS
    ensures IsMap(r) && Ports(r) == if mine then Ports(words) + {bit} else Ports(words) - {bit}
  {
    if mine {
      SetBitAvail(words, bit);
      r := SetBit(words, bit);
    } else {
      ClearBitAvail(words, bit);
      r := ClearBit(words, bit);
    }
  }

  /** The given port set or cleared in the shared map and in every claimed slot. */
  ghost predicate Marked(m: Maps, r: Maps, bit: nat, mine: bool)
    requires MapsOk(m) && MapsOk(r)
  {
    && SameButMaps(m, r)
    && Ports(r.shared.words) == (if mine then Ports(m.shared.words) + {bit} else Ports(m.shared.words) - {bit})
    && forall s :: 0 <= s < |m.slots| && m.slots[s].ip != 0 ==>
         Ports(r.slots[s].words) == if mine then Ports(m.slots[s].words) + {bit} else Ports(m.slots[s].words) - {bit}
  }

  /** One port in one worker: set where it belongs, cleared elsewhere, in every claimed map. */
  method MarkWorker(m: Maps, bit: nat, mine: bool) returns (r: Maps)
    requires MapsOk(m) && bit < PORTS
    ensures MapsOk(r) && Marked(m, r, bit, mine)
  {
    hide IsMap, Ports;
    var words := Mark(m.shared.words, bit, mine);
    var slots := m.slots;
    var s := 0;
    while s < |slots|
      invariant s <= |slots| == |m.slots|
      invariant forall t :: 0 <= t < |slots| ==> IpPoolOk(slots[t]) && slots[t] == m.slots[t].(words := slots[t].words)
      invariant forall t :: 0 <= t < |slots| && (t >= s || m.slots[t].ip == 0) ==> slots[t] == m.slots[t]
      invariant forall t :: 0 <= t < s && m.slots[t].ip != 0 ==>
                  Ports(slots[t].words) == if mine then Ports(m.slots[t].words) + {bit} else Ports(m.slots[t].words) - {bit}
    {
      if slots[s].ip != 0 {
        var changed := Mark(slots[s].words, bit, mine);
        slots := slots[s := slots[s].(words := changed)];
      }
      s := s + 1;
    }
    r := Maps(m.shared.(words := words), slots);
  }

  /** What the filter leaves, given what was there. */
  ghost predicate FilterRan(before: seq<Maps>, after: seq<Maps>, queues: nat, queueOf: nat -> nat) {
    && |after| == |before| && (forall w :: 0 <= w < |after| ==> MapsOk(after[w]))
    && if queues <= 1 || |before| <= 1 then after == before
       else forall w :: 0 <= w < |after| ==>
              SameButMaps(before[w], after[w]) && MapsFilteredTo(after[w], queueOf, |after|, w, PORTS)
  }

  /**
   * tcp_port_pool_apply_rss_filter: with more than one queue and worker, each
   * worker's shared map and claimed maps end up with exactly its own ports,
   * whatever they held before; otherwise nothing changes.
   */
  method ApplyFilter(pools: array<Maps>, queues: nat, queueOf: nat -> nat)
    requires forall w :: 0 <= w < pools.Length ==> MapsOk(pools[w])
    modifies pools
    ensures FilterRan(old(pools[..]), pools[..], queues, queueOf)
  {
    if queues <= 1 || pools.Length <= 1 { return; }
    hide MapsOk, MapsFilteredTo, SameButMaps;
    ghost var before := pools[..];
    FilterStart(before, queueOf);
    var bit := 0;
    while bit < PORTS
      invariant bit <= PORTS
      invariant forall w :: 0 <= w < pools.Length ==> MapsOk(pools[w]) && SameButMaps(before[w], pools[w])
      invariant forall w :: 0 <= w < pools.Length ==> MapsFilteredTo(pools[w], queueOf, pools.Length, w, bit)
    {
      FilterPort(pools, queueOf, bit, before);
      bit := bit + 1;
    }
  }

  /** The inner loop: one port, in every worker's maps. */
  method FilterPort(pools: array<Maps>, queueOf: nat -> nat, bit: nat, ghost start: seq<Maps>)
    requires bit < PORTS && pools.Length > 0 && |start| == pools.Length
    requires forall w :: 0 <= w < pools.Length ==> MapsOk(pools[w]) && SameButMaps(start[w], pools[w])
    requires forall w :: 0 <= w < pools.Length ==> MapsFilteredTo(pools[w], queueOf, pools.Length, w, bit)
    modifies pools
    ensures forall w :: 0 <= w < pools.Length ==> MapsOk(pools[w]) && SameButMaps(start[w], pools[w])
    ensures forall w :: 0 <= w < pools.Length ==> MapsFilteredTo(pools[w], queueOf, pools.Length, w, bit + 1)
  {
    hide MapsOk, MapsFilteredTo, SameButMaps, Marked;
    var owner := Owner(queueOf, pools.Length, bit);
    ghost var before := pools[..];
    var w := 0;
    while w < pools.Length
      invariant w <= pools.Length
      invariant forall v :: 0 <= v < pools.Length ==> MapsOk(pools[v]) && SameButMaps(start[v], pools[v])
      invariant forall v :: 0 <= v < w ==> MapsFilteredTo(pools[v], queueOf, pools.Length, v, bit + 1)
      invariant forall v :: w <= v < pools.Length ==> pools[v] == before[v]
    {
      assert pools[w] == before[w];
      var m := MarkWorker(pools[w], bit, w == owner);
      MarkFilters(start[w], pools[w], m, queueOf, pools.Length, w, bit);
      pools[w] := m;
      w := w + 1;
    }
  }

  lemma FilterStart(pools: seq<Maps>, queueOf: nat -> nat)
    requires |pools| > 0 && forall w :: 0 <= w < |pools| ==> MapsOk(pools[w])
    ensures forall w :: 0 <= w < |pools| ==> SameButMaps(pools[w], pools[w]) && MapsFilteredTo(pools[w], queueOf, |pools|, w, 0)
  {
  }

  lemma MarkFilters(start: Maps, m: Maps, r: Maps, queueOf: nat -> nat, workers: nat, w: nat, bit: nat)
    requires MapsOk(m) && MapsOk(r) && workers > 0 && bit < PORTS && SameButMaps(start, m)
    requires MapsFilteredTo(m, queueOf, workers, w, bit) && Marked(m, r, bit, w == Owner(queueOf, workers, bit))
    ensures MapsFilteredTo(r, queueOf, workers, w, bit + 1) && SameButMaps(start, r)
  {
    hide IsMap, Ports, Owner;
  }

  // ------------------------------------------------------------ disjointness

  /** The ports of a worker. */
  ghost function Own(queueOf: nat -> nat, workers: nat, w: nat): set<nat>
    requires workers > 0
  {
    set b | b in AllPorts() && Owner(queueOf, workers, b) == w
  }

  /** A completely filtered bitmap holds exactly the worker's ports. */
  lemma FilteredIsOwn(words: seq<nat>, queueOf: nat -> nat, workers: nat, w: nat)
    requires IsMap(words) && workers > 0 && FilteredTo(words, queueOf, workers, w, PORTS)
    ensures Ports(words) == Own(queueOf, workers, w)
  {
    hide Owner, IsMap;
  }

  /** A worker after initialisation or reset: all ports in the shared map, no slot claimed. */
  ghost predicate Pristine(m: Maps) {
    MapsOk(m) && m.shared == IpPool(0, 0, Full()) && |m.slots| == N_SLOTS && forall s :: 0 <= s < N_SLOTS ==> m.slots[s].ip == 0
  }

  /** The worker those maps belong to, with an empty hold-off ring. */
  ghost function WorkerOf(m: Maps, hold: nat): Worker
    requires MapsOk(m)
  {
    Worker(AbstractTable(m.slots), Abstract(m.shared), [], hold)
  }

  /** Port b is in the shared map of exactly one worker. */
  ghost predicate OneOwner(pools: seq<Maps>, b: nat)
    requires forall w :: 0 <= w < |pools| ==> MapsOk(pools[w])
  {
    exists w :: 0 <= w < |pools| && InShared(pools[w], b) && forall v :: 0 <= v < |pools| && InShared(pools[v], b) ==> v == w
  }

  ghost predicate InShared(m: Maps, b: nat)
    requires MapsOk(m)
  {
    b in Ports(m.shared.words)
  }

  /** What filtering pristine workers leaves in a shared map. */
  lemma SharedAfter(before: seq<Maps>, after: seq<Maps>, queues: nat, queueOf: nat -> nat, w: nat)
    requires w < |before| && Pristine(before[w]) && FilterRan(before, after, queues, queueOf)
    ensures MapsOk(after[w]) && Unserved(WorkerOf(after[w], 0)) && WorkerOf(after[w], 0).shared.avail == Ports(after[w].shared.words)
    ensures Ports(after[w].shared.words) == if queues > 1 && |before| > 1 then Own(queueOf, |after|, w) else AllPorts()
  {
    FullIsAll();
    assert MapsOk(after[w]);
    if queues > 1 && |before| > 1 {
      assert SameButMaps(before[w], after[w]) && MapsFilteredTo(after[w], queueOf, |after|, w, PORTS);
      FilteredIsOwn(after[w].shared.words, queueOf, |after|, w);
    } else {
      assert Ports(Full()) == AllPorts();
    }
    hide Owner, IsMap;
    UnservedAfter(after[w], 0);
  }

  lemma UnservedAfter(m: Maps, hold: nat)
    requires MapsOk(m) && m.shared.cursor == 0 && |m.slots| == N_SLOTS && forall s :: 0 <= s < N_SLOTS ==> m.slots[s].ip == 0
    ensures Unserved(WorkerOf(m, hold)) && WorkerOf(m, hold).shared.avail == Ports(m.shared.words)
  {
    hide IsMap;
  }

  /**
   * Filtering freshly reset workers leaves every ephemeral port in exactly one
   * worker's shared map, whatever the hash and table say, exactly when there is
   * a single worker or more than one receive queue.
   */
  lemma ExactlyOneOwnerIff(before: seq<Maps>, after: seq<Maps>, queues: nat, queueOf: nat -> nat)
    requires before != [] && (forall w :: 0 <= w < |before| ==> Pristine(before[w])) && FilterRan(before, after, queues, queueOf)
    ensures (forall b: nat :: b < PORTS ==> OneOwner(after, b)) <==> |before| == 1 || queues > 1
  {
    forall w: nat | w < |before|
      ensures MapsOk(after[w])
      ensures Ports(after[w].shared.words) == if queues > 1 && |before| > 1 then Own(queueOf, |after|, w) else AllPorts()
    {
      SharedAfter(before, after, queues, queueOf, w);
    }
    hide Pristine, FilterRan, Ports, IsMap, Owner;
    if |before| == 1 || queues > 1 {
      forall b: nat | b < PORTS ensures OneOwner(after, b) {
        var w := if |before| == 1 then 0 else Owner(queueOf, |after|, b);
        assert InShared(after[w], b);
      }
    } else {
      assert InShared(after[0], 0) && InShared(after[1], 0);
      assert !OneOwner(after, 0);
    }
  }

  /**
   * Worker disjointness over whole runs: after the filter on freshly reset
   * workers, two workers never hold the same port, nor have one in hold-off
   * that the other holds, whatever each of them allocates, frees, claims and expires.
   */
  lemma WorkersStayDisjoint(before: seq<Maps>, after: seq<Maps>, queues: nat, queueOf: nat -> nat, a: nat, b: nat,
                            hold: nat, now: nat, hashA: Hash, hashB: Hash, esA: seq<Event>, esB: seq<Event>)
    requires (forall w :: 0 <= w < |before| ==> Pristine(before[w])) && FilterRan(before, after, queues, queueOf)
    requires queues > 1 && a < |before| && b < |before| && a != b
    ensures MapsOk(after[a]) && Safe(History(WorkerOf(after[a], hold), {}, now), hashA)
    ensures MapsOk(after[b]) && Safe(History(WorkerOf(after[b], hold), {}, now), hashB)
    ensures var hA := Exec(History(WorkerOf(after[a], hold), {}, now), hashA, esA);
            var hB := Exec(History(WorkerOf(after[b], hold), {}, now), hashB, esB);
            forall x, y :: (x in hA.held || InRing(hA, x)) && (y in hB.held || InRing(hB, y)) ==> x.1 != y.1
  {
    var mineA, mineB := Own(queueOf, |after|, a), Own(queueOf, |after|, b);
    assert mineA !! mineB;
    hide Pristine, FilterRan, IsMap, Owner, Own, Safe, Exec;
    WorkerOwns(before, after, queues, queueOf, a, hold, now, hashA, esA);
    WorkerOwns(before, after, queues, queueOf, b, hold, now, hashB, esB);
  }

  /** A filtered worker only ever deals in its own ports. */
  lemma WorkerOwns(before: seq<Maps>, after: seq<Maps>, queues: nat, queueOf: nat -> nat, w: nat,
                   hold: nat, now: nat, hash: Hash, es: seq<Event>)
    requires w < |before| && Pristine(before[w]) && FilterRan(before, after, queues, queueOf) && queues > 1 && |before| > 1
    ensures MapsOk(after[w]) && Safe(History(WorkerOf(after[w], hold), {}, now), hash) && |after| == |before|
    ensures Owns(Exec(History(WorkerOf(after[w], hold), {}, now), hash, es), Own(queueOf, |after|, w))
  {
    SharedAfter(before, after, queues, queueOf, w);
    PristineShape(before, after, queues, queueOf, w);
    hide Pristine, FilterRan, IsMap, Owner, Own, Safe, Exec, Owns;
    UnservedAfter(after[w], hold);
    UnservedIsSafe(WorkerOf(after[w], hold), now, hash);
    RunKeepsOwns(History(WorkerOf(after[w], hold), {}, now), hash, es, Own(queueOf, |after|, w));
  }

  // ---------------------------------------------------------- queue affinity

  /** Replies of queue q reach worker w: the queue's own worker, or round robin beyond the workers. */
  predicate Polls(workers: nat, w: nat, q: nat)
    requires workers > 0
  {
    if q < workers then w == q else w == q % workers
  }

  lemma OwnerPolls(queueOf: nat -> nat, workers: nat, b: nat, w: nat)
    requires w < workers
    ensures Owner(queueOf, workers, b) == w <==> Polls(workers, w, queueOf(b))
  {
  }

  /**
   * Queue affinity: with more than one queue and worker the filter leaves a
   * port in a worker's shared map, and in every slot it has claimed, exactly
   * when that worker polls the queue the port's replies hash to.
   */
  lemma QueueAffinity(before: seq<Maps>, after: seq<Maps>, queues: nat, queueOf: nat -> nat, w: nat, b: nat)
    requires FilterRan(before, after, queues, queueOf) && queues > 1 && |before| > 1 && w < |after| && b < PORTS
    ensures MapsOk(after[w])
    ensures b in Ports(after[w].shared.words) <==> Polls(|after|, w, queueOf(b))
    ensures forall s :: 0 <= s < |after[w].slots| && after[w].slots[s].ip != 0 ==>
              (b in Ports(after[w].slots[s].words) <==> Polls(|after|, w, queueOf(b)))
  {
    assert MapsFilteredTo(after[w], queueOf, |after|, w, PORTS);
    OwnerPolls(queueOf, |after|, b, w);
    hide Owner, Polls, IsMap;
    assert FilteredTo(after[w].shared.words, queueOf, |after|, w, PORTS);
  }

  /** Over every later run a worker holds, and keeps in hold-off, only ports whose replies reach it. */
  lemma AffinityOverRuns(before: seq<Maps>, after: seq<Maps>, queues: nat, queueOf: nat -> nat, w: nat,
                         hold: nat, now: nat, hash: Hash, es: seq<Event>)
    requires w < |before| && Pristine(before[w]) && FilterRan(before, after, queues, queueOf) && queues > 1 && |before| > 1
    ensures MapsOk(after[w]) && Safe(History(WorkerOf(after[w], hold), {}, now), hash)
    ensures var h := Exec(History(WorkerOf(after[w], hold), {}, now), hash, es);
            forall x :: x in h.held || InRing(h, x) ==> Polls(|before|, w, queueOf(x.1))
  {
    hide Pristine, FilterRan, IsMap, Owner, Safe, Exec, Polls;
    WorkerOwns(before, after, queues, queueOf, w, hold, now, hash, es);
    var h := Exec(History(WorkerOf(after[w], hold), {}, now), hash, es);
    forall x | x in h.held || InRing(h, x) ensures Polls(|before|, w, queueOf(x.1)) {
      OwnerPolls(queueOf, |before|, x.1, w);
    }
  }

  lemma PristineShape(before: seq<Maps>, after: seq<Maps>, queues: nat, queueOf: nat -> nat, w: nat)
    requires w < |before| && Pristine(before[w]) && FilterRan(before, after, queues, queueOf)
    ensures MapsOk(after[w]) && after[w].shared.cursor == 0 && |after[w].slots| == N_SLOTS
    ensures forall s :: 0 <= s < N_SLOTS ==> after[w].slots[s].ip == 0
  {
    assert queues > 1 && |before| > 1 ==> SameButMaps(before[w], after[w]);
    hide IsMap, MapsFilteredTo;
  }

  ghost predicate InRing(h: History, claim: (Ref, nat)) {
    exists k :: 0 <= k < |h.w.ring| && h.w.ring[k].port == claim.1
  }
}
