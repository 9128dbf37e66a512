/** Construction of GlobalRegisteredMemory and its index maps, and the free counter. */
module SegmentMemory {
  import opened Bytes
  import opened Modular
  import opened Sequences
  import opened SegmentStack

  // ---- the constructor's free list

  function InitialSucc(n: nat): seq<Word32>
    requires n < INVALID_IDX
  {
    seq(n, i requires 0 <= i < n => LastOf(i))
  }

  /** n-1, n-2, ..., 0 */
  function Down(n: nat): (c: seq<Word32>)
    requires n < INVALID_IDX
    ensures |c| == n
  {
    seq(n, i requires 0 <= i < n => n - 1 - i)
  }

  /** The chunk and segment loops of the constructor. */
  method BuildFreeList(numChunks: nat, perChunk: nat) returns (succ: array<Word32>, top: Word32)
    requires numChunks * perChunk < INVALID_IDX
    ensures succ[..] == InitialSucc(numChunks * perChunk)
    ensures top == Top(Down(numChunks * perChunk))
  {
    hide Built, LastOf, InitialSucc, Down;
    var total := numChunks * perChunk;
    succ := new Word32[total];
    top := INVALID_IDX;
    ghost var base := 0;
    NothingBuilt(succ[..]);
    for c := 0 to numChunks
      invariant base == c * perChunk <= total
      invariant Built(succ[..], base) && top == LastOf(base)
    {
      ProductMonotone(c + 1, perChunk, numChunks, perChunk);
      Distribute(c, 1, perChunk);
      top := BuildChunk(succ, c * perChunk, perChunk, top);
      base := base + perChunk;
    }
    AllBuilt(succ[..], total);
  }

  lemma NothingBuilt(succ: seq<Word32>)
    requires |succ| < INVALID_IDX
    ensures Built(succ, 0) && LastOf(0) == INVALID_IDX
  {
  }

  lemma AllBuilt(succ: seq<Word32>, n: nat)
    requires Built(succ, n) && |succ| == n
    ensures succ == InitialSucc(n) && LastOf(n) == Top(Down(n))
  {
  }

  predicate Built(succ: seq<Word32>, done: nat) {
    done <= |succ| < INVALID_IDX && forall i :: 0 <= i < done ==> succ[i] == LastOf(i)
  }

  /** The segment pushed just before segment `n`. */
  function LastOf(n: nat): Word32
    requires n < TWO32
  {
    if n == 0 then INVALID_IDX else n - 1
  }

  method BuildChunk(succ: array<Word32>, base: nat, perChunk: nat, top0: Word32) returns (top: Word32)
    requires base + perChunk <= succ.Length < INVALID_IDX
    requires Built(succ[..], base) && top0 == LastOf(base)
    modifies succ
    ensures Built(succ[..], base + perChunk) && top == LastOf(base + perChunk)
  {
    top := top0;
    for i := 0 to perChunk
      invariant Built(succ[..], base + i) && top == LastOf(base + i)
    {
      succ[base + i] := top;
      top := base + i;
    }
  }

  function InitialState(n: nat, threads: set<nat>): State
    requires n < INVALID_IDX
  {
    State(EncodeHead(0, Top(Down(n))), InitialSucc(n), n, map t | t in threads :: Idle, {})
  }

  /** All segments on the list, highest index on top, for any number of threads. */
  lemma InitialInv(n: nat, threads: set<nat>)
    requires n < INVALID_IDX
    ensures Inv(InitialState(n, threads), Abs(Down(n), 0, map[]))
  {
    var s, a := InitialState(n, threads), Abs(Down(n), 0, map[]);
    DecodeEncode(0, Top(Down(n)));
    DownFacts(n);
    hide EncodeHead, DecodeVer, DecodeIdx, Down, InitialSucc, Linked, Distinct;
    assert ChainInv(s, a);
    assert Shared(n, a.chain, s.held, s.pcs);
  }

  lemma DownFacts(n: nat)
    requires n < INVALID_IDX
    ensures Linked(InitialSucc(n), Down(n)) && Distinct(Down(n)) && |InitialSucc(n)| == n
    ensures forall x: Word32 :: x in Down(n) <==> x < n
  {
    var succ, chain := InitialSucc(n), Down(n);
    forall i | 0 <= i < |chain| ensures chain[i] < |succ| && succ[chain[i]] == Top(chain[i + 1..]) {
      assert chain[i] == n - 1 - i;
    }
    forall x: Word32 | x < n ensures x in chain {
      assert chain[n - 1 - x] == x;
    }
  }

  // ---- (char *, chunk_idx) <-> segment index

  /** `segment_size_`, `segments_per_chunk_` and the chunk base addresses. */
  datatype Layout = Layout(size: nat, perChunk: nat, bases: seq<nat>)
  {
    function Total(): nat { |bases| * perChunk }

    ghost predicate Valid() {
      && size > 0 && perChunk > 0
      && forall c, d :: 0 <= c < d < |bases| ==>
           bases[c] + perChunk * size <= bases[d] || bases[d] + perChunk * size <= bases[c]
    }

    function ChunkIdxOf(idx: nat): (c: nat)
      requires perChunk > 0
    {
      idx / perChunk
    }

    function SegmentPtr(idx: nat): nat
      requires Valid() && ChunkIdxOf(idx) < |bases|
    {
      bases[idx / perChunk] + idx % perChunk * size
    }

    function SegmentIndex(ptr: nat, chunk: nat): nat
      requires Valid() && chunk < |bases| && ptr >= bases[chunk]
    {
      chunk * perChunk + (ptr - bases[chunk]) / size
    }
  }

  lemma ChunkInRange(m: Layout, idx: nat)
    requires m.Valid() && idx < m.Total()
    ensures m.ChunkIdxOf(idx) < |m.bases|
  {
    var c := idx / m.perChunk;
    if c >= |m.bases| {
      ProductMonotone(|m.bases|, m.perChunk, c, m.perChunk);
    }
  }

  /** SegmentIndex undoes SegmentPtr with ChunkIdxOf. */
  lemma IndexOfPtr(m: Layout, idx: nat)
    requires m.Valid() && idx < m.Total()
    ensures m.ChunkIdxOf(idx) < |m.bases|
    ensures m.SegmentIndex(m.SegmentPtr(idx), m.ChunkIdxOf(idx)) == idx
  {
    ChunkInRange(m, idx);
    var r := idx % m.perChunk;
    QuotientRemainder(r * m.size, r, 0, m.size);
  }

  /** Different segments are different memory. */
  lemma SegmentsDisjoint(m: Layout, i: nat, j: nat)
    requires m.Valid() && i < m.Total() && j < m.Total() && i != j
    ensures m.ChunkIdxOf(i) < |m.bases| && m.ChunkIdxOf(j) < |m.bases|
    ensures m.SegmentPtr(i) + m.size <= m.SegmentPtr(j) || m.SegmentPtr(j) + m.size <= m.SegmentPtr(i)
  {
    ChunkInRange(m, i);
    ChunkInRange(m, j);
    PlacesDisjoint(m, m.ChunkIdxOf(i), i % m.perChunk, m.ChunkIdxOf(j), j % m.perChunk) by {
      if m.ChunkIdxOf(i) == m.ChunkIdxOf(j) {
        DifferentOffsets(i, j, m.perChunk);
      }
    }
  }

  lemma PlacesDisjoint(m: Layout, c: nat, r: nat, d: nat, s: nat)
    requires m.Valid() && c < |m.bases| && d < |m.bases| && r < m.perChunk && s < m.perChunk && (c == d ==> r != s)
    ensures m.bases[c] + r * m.size + m.size <= m.bases[d] + s * m.size
         || m.bases[d] + s * m.size + m.size <= m.bases[c] + r * m.size
  {
    InsideChunk(r, m.perChunk, m.size);
    InsideChunk(s, m.perChunk, m.size);
    if c == d {
      OffsetsApart(r, s, m.size);
    }
    Apart(m.bases[c], m.bases[d], r * m.size, s * m.size, m.size, m.perChunk * m.size);
  }

  lemma OffsetsApart(r: nat, r': nat, size: nat)
    requires r != r'
    ensures r * size + size <= r' * size || r' * size + size <= r * size
  {
    if r < r' { InsideChunk(r, r', size); } else { InsideChunk(r', r, size); }
  }

  lemma DifferentOffsets(i: nat, j: nat, perChunk: nat)
    requires perChunk > 0 && i / perChunk == j / perChunk && i != j
    ensures i % perChunk != j % perChunk
  {
  }

  lemma Apart(p: nat, q: nat, o: nat, o': nat, size: nat, block: nat)
    requires o + size <= block && o' + size <= block
    requires (p == q && (o + size <= o' || o' + size <= o)) || p + block <= q || q + block <= p
    ensures p + o + size <= q + o' || q + o' + size <= p + o
  {
  }

  lemma InsideChunk(r: nat, bound: nat, size: nat)
    requires r < bound
    ensures r * size + size <= bound * size
  {
    Distribute(r, 1, size);
    ProductMonotone(r + 1, size, bound, size);
  }

  // ---- free_count_

  function PopsPending(pcs: map<nat, Pc>): set<nat> { set t | t in pcs && pcs[t].PopDone? }
  function PushesPending(pcs: map<nat, Pc>): set<nat> { set t | t in pcs && pcs[t].PushDone? }

  /** The counter lags behind the list by the CASes whose count is still to be booked, modulo 2^64. */
  ghost predicate CountInv(s: State, a: Abs) {
    s.free == (|a.chain| + |PopsPending(s.pcs)| - |PushesPending(s.pcs)|) % TWO64
  }

  lemma PendingUpdate(pcs: map<nat, Pc>, t: nat, pc: Pc)
    requires t in pcs
    ensures |PopsPending(pcs[t := pc])|
         == |PopsPending(pcs)| - (if pcs[t].PopDone? then 1 else 0) + (if pc.PopDone? then 1 else 0)
    ensures |PushesPending(pcs[t := pc])|
         == |PushesPending(pcs)| - (if pcs[t].PushDone? then 1 else 0) + (if pc.PushDone? then 1 else 0)
  {
    var p, p' := PopsPending(pcs), PopsPending(pcs[t := pc]);
    var q, q' := PushesPending(pcs), PushesPending(pcs[t := pc]);
    assert p' - {t} == p - {t} && q' - {t} == q - {t};
    Without(p, t); Without(p', t); Without(q, t); Without(q', t);
  }

  lemma Without(s: set<nat>, t: nat)
    ensures |s| == |s - {t}| + (if t in s then 1 else 0)
  {
    if t in s {
      assert s == s - {t} + {t};
    } else {
      assert s == s - {t};
    }
  }

  lemma CountStep(c: int, delta: int)
    requires delta == 1 || delta == -1
    ensures delta == 1 ==> Add64(c % TWO64, 1) == (c + 1) % TWO64
    ensures delta == -1 ==> Sub64(c % TWO64, 1) == (c - 1) % TWO64
  {
  }

  lemma CountKeeps(s: State, a: Abs, act: Act)
    requires Inv(s, a) && Enabled(s, act) && Timely(s, a, act) && CountInv(s, a)
    ensures CountInv(Step(s, act), AbsStep(s, a, act))
  {
    var s' := Step(s, act);
    PendingUpdate(s.pcs, act.t, s'.pcs[act.t]);
    CountStep(|a.chain| + |PopsPending(s.pcs)| - |PushesPending(s.pcs)|, if act.PopCount? then -1 else 1);
    if PopWins(s, act) {
      WinningPopIsExact(s, a, act);
    }
    hide Inv, Enabled, PopsPending, PushesPending, EncodeHead, DecodeIdx, DecodeVer, Add64, Sub64;
  }

  /** Between operations FreeSegments() is the length of the list. */
  lemma CountWhenQuiet(s: State, a: Abs)
    requires Inv(s, a) && CountInv(s, a)
    requires forall t :: t in s.pcs ==> !s.pcs[t].PopDone? && !s.pcs[t].PushDone?
    ensures s.free == |a.chain|
  {
    assert PopsPending(s.pcs) == {} && PushesPending(s.pcs) == {};
    ChainIsShort(a.chain, |s.succ|);
  }

  /** A repeat-free list of segments is no longer than the number of segments. */
  lemma ChainIsShort(chain: seq<Word32>, n: nat)
    requires Distinct(chain) && forall x :: x in chain ==> x < n
    ensures |chain| <= n
  {
    DistinctSize(chain);
    Below(Elements(chain), n);
  }

  lemma {:induction false} Below(s: set<Word32>, n: nat)
    requires forall x :: x in s ==> x < n
    ensures |s| <= n
    decreases n
  {
    if n == 0 {
      assert s == {};
    } else {
      var rest := s - {n - 1};
      Below(rest, n - 1);
      if n - 1 in s {
        assert s == rest + {n - 1};
      } else {
        assert s == rest;
      }
    }
  }
}
