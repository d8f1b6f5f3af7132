/**
 Ladders read off a sorted price index and a map from slots (side, price) to queues: how the
 imperative book's index and level maps determine the two sides of the book's value.
 */
module Ladders {
  import opened Domain
  import opened Matching
  import opened MatchingLaws

  datatype Slot = Slot(side: Side, price: int)

  function Queue<T>(m: map<Slot, seq<T>>, s: Slot): seq<T> {
    if s in m then m[s] else []
  }

  /** `m` with the queue at `s` replaced; an empty queue leaves no slot. */
  function SetQueue<T>(m: map<Slot, seq<T>>, s: Slot, q: seq<T>): map<Slot, seq<T>> {
    if q == [] then m - {s} else m[s := q]
  }

  function Drop<T>(q: seq<T>, k: nat): seq<T>
    requires k < |q|
  {
    q[..k] + q[k + 1..]
  }

  lemma {:induction false} DropAt<T>(q: seq<T>, k: nat)
    requires k < |q|
    ensures |Drop(q, k)| == |q| - 1
    ensures forall j | 0 <= j < |q| - 1 :: Drop(q, k)[j] == q[if j < k then j else j + 1]
    ensures forall i | 0 <= i < |q| && i != k :: q[i] in Drop(q, k)
  {
    forall i | 0 <= i < |q| && i != k ensures q[i] in Drop(q, k) {
      assert Drop(q, k)[if i < k then i else i - 1] == q[i];
    }
  }

  lemma {:induction false} SetQueueTwice<T>(m: map<Slot, seq<T>>, s: Slot, a: seq<T>, b: seq<T>)
    ensures SetQueue(SetQueue(m, s, a), s, b) == SetQueue(m, s, b)
    ensures Queue(SetQueue(m, s, a), s) == a
  {}

  lemma {:induction false} SetQueueAt<T>(m: map<Slot, seq<T>>, s: Slot, q: seq<T>)
    ensures s in SetQueue(m, s, q) <==> q != []
    ensures q != [] ==> SetQueue(m, s, q)[s] == q
  {}

  lemma {:induction false} SetQueueOthers<T>(m: map<Slot, seq<T>>, s: Slot, q: seq<T>)
    ensures forall s' | s' != s :: Queue(SetQueue(m, s, q), s') == Queue(m, s')
  {}

  lemma {:induction false} SetQueueOther<T>(m: map<Slot, seq<T>>, s: Slot, q: seq<T>, s': Slot)
    requires s' != s
    ensures s' in SetQueue(m, s, q) <==> s' in m
    ensures s' in m ==> SetQueue(m, s, q)[s'] == m[s']
  {}

  lemma {:induction false} SetQueueSame<T>(m: map<Slot, seq<T>>, s: Slot)
    requires s in m && m[s] != []
    ensures SetQueue(m, s, m[s]) == m
  {}

  lemma {:induction false} DropMiddle<T>(done: seq<T>, todo: seq<T>, x: T)
    requires todo != []
    ensures Drop(done + todo, |done|) == done + todo[1..]
    ensures (done + todo)[|done| := x] == done + [x] + todo[1..]
    ensures (done + todo)[|done|] == todo[0]
  {}

  predicate Sorted(side: Side, index: seq<int>) {
    forall i, j | 0 <= i < j < |index| :: Better(side, index[i], index[j])
  }

  /** The index is sorted and lists exactly the prices that have a queue. */
  ghost predicate IndexOk(side: Side, index: seq<int>, m: map<Slot, seq<Entry>>) {
    Sorted(side, index) && forall p :: p in index <==> Slot(side, p) in m
  }

  predicate EntriesOk(m: map<Slot, seq<Entry>>) {
    forall s | s in m :: m[s] != [] && QueueOk(s.side, s.price, m[s])
  }

  function LadderOf(side: Side, index: seq<int>, m: map<Slot, seq<Entry>>): Ladder {
    seq(|index|, i requires 0 <= i < |index| => Level(index[i], Queue(m, Slot(side, index[i]))))
  }

  lemma {:induction false} QueueOfPrices(side: Side, index: seq<int>, m: map<Slot, seq<Entry>>, p: int)
    ensures QueueAt(LadderOf(side, index, m), p) == if p in index then Queue(m, Slot(side, p)) else []
  {
    if index != [] {
      QueueOfPrices(side, index[1..], m, p);
      assert LadderOf(side, index, m)[1..] == LadderOf(side, index[1..], m);
    }
  }

  /** The ladder of a good index is well-formed and has each slot's queue at its price. */
  lemma {:induction false} LadderOfOk(side: Side, index: seq<int>, m: map<Slot, seq<Entry>>)
    requires IndexOk(side, index, m) && EntriesOk(m)
    ensures LadderOk(side, LadderOf(side, index, m))
    ensures forall p :: QueueAt(LadderOf(side, index, m), p) == Queue(m, Slot(side, p))
  {
    forall i | 0 <= i < |index| ensures Slot(side, index[i]) in m {
      assert index[i] in index;
    }
    forall p ensures QueueAt(LadderOf(side, index, m), p) == Queue(m, Slot(side, p)) {
      QueueOfPrices(side, index, m, p);
    }
  }

  /** A ladder is the ladder of an index and its queues when it has those queues at every price. */
  lemma {:induction false} LadderIs(side: Side, index: seq<int>, m: map<Slot, seq<Entry>>, ladder: Ladder)
    requires IndexOk(side, index, m) && EntriesOk(m) && LadderOk(side, ladder)
    requires forall p :: QueueAt(ladder, p) == Queue(m, Slot(side, p))
    ensures LadderOf(side, index, m) == ladder
  {
    LadderOfOk(side, index, m);
    LadderExtensional(side, LadderOf(side, index, m), ladder);
  }

  /** An index and queues that agree on one side give the same ladder. */
  lemma {:induction false} SameLadder(side: Side, index: seq<int>, m: map<Slot, seq<Entry>>, index': seq<int>,
                                      m': map<Slot, seq<Entry>>)
    requires IndexOk(side, index, m) && IndexOk(side, index', m') && EntriesOk(m) && EntriesOk(m')
    requires forall p :: Queue(m, Slot(side, p)) == Queue(m', Slot(side, p))
    ensures LadderOf(side, index', m') == LadderOf(side, index, m)
  {
    LadderOfOk(side, index, m);
    LadderIs(side, index', m', LadderOf(side, index, m));
  }

  lemma {:induction false} AddEntries(m: map<Slot, seq<Entry>>, e: Entry)
    requires EntriesOk(m) && e.remaining > 0
    ensures var s := Slot(e.side, e.price); EntriesOk(m[s := Queue(m, s) + [e]])
  {}

  /** Appending an order to its queue is resting it on the ladder. */
  lemma {:induction false} AddLadder(index: seq<int>, m: map<Slot, seq<Entry>>, index': seq<int>,
                                     m': map<Slot, seq<Entry>>, e: Entry)
    requires IndexOk(e.side, index, m) && EntriesOk(m) && IndexOk(e.side, index', m') && e.remaining > 0
    requires var s := Slot(e.side, e.price); m' == m[s := Queue(m, s) + [e]]
    ensures EntriesOk(m')
    ensures LadderOf(e.side, index', m') == Add(LadderOf(e.side, index, m), e)
  {
    hide LadderOf, LadderOk, Add, QueueAt, IndexOk, EntriesOk;
    var ladder, s := LadderOf(e.side, index, m), Slot(e.side, e.price);
    AddEntries(m, e);
    LadderOfOk(e.side, index, m);
    AddQueueAt(e.side, ladder, e);
    forall p ensures QueueAt(Add(ladder, e), p) == Queue(m', Slot(e.side, p)) {
      assert Slot(e.side, p) == s <==> p == e.price;
      assert QueueAt(ladder, p) + [] == QueueAt(ladder, p);
    }
    LadderIs(e.side, index', m', Add(ladder, e));
  }

  /** Dropping a position whose id comes first there is removing that id from the ladder. */
  lemma {:induction false} RemoveLadder(s: Slot, index: seq<int>, m: map<Slot, seq<Entry>>, index': seq<int>,
                                        m': map<Slot, seq<Entry>>, k: nat)
    requires IndexOk(s.side, index, m) && EntriesOk(m) && IndexOk(s.side, index', m')
    requires s in m && k < |m[s]| && forall i | 0 <= i < k :: m[s][i].id != m[s][k].id
    requires m' == SetQueue(m, s, Drop(m[s], k))
    ensures EntriesOk(m')
    ensures LadderOf(s.side, index', m') == Remove(LadderOf(s.side, index, m), s.price, m[s][k].id)
  {
    var ladder := LadderOf(s.side, index, m);
    LadderOfOk(s.side, index, m);
    RemoveQueueAt(s.side, ladder, s.price, m[s][k].id);
    FindInAt(m[s], k);
    WithoutOk(s.side, s.price, m[s], m[s][k].id);
    LadderIs(s.side, index', m', Remove(ladder, s.price, m[s][k].id));
  }

  /** Replacing the queue of the best price replaces, or with nothing left takes off, the first level. */
  lemma {:induction false} SetFirst(side: Side, index: seq<int>, m: map<Slot, seq<Entry>>, index': seq<int>,
                                    m': map<Slot, seq<Entry>>, q: seq<Entry>)
    requires IndexOk(side, index, m) && EntriesOk(m) && IndexOk(side, index', m') && index != []
    requires QueueOk(side, index[0], q) && m' == SetQueue(m, Slot(side, index[0]), q)
    ensures EntriesOk(m')
    ensures LadderOf(side, index', m') == AfterFirst(LadderOf(side, index, m), q)
  {
    var ladder, first := LadderOf(side, index, m), Slot(side, index[0]);
    LadderOfOk(side, index, m);
    TailAvoids(side, ladder);
    var after := AfterFirst(ladder, q);
    assert q != [] ==> after[1..] == ladder[1..];
    forall p ensures QueueAt(after, p) == Queue(m', Slot(side, p)) {
      assert QueueAt(ladder, p) == Queue(m, Slot(side, p));
    }
    LadderIs(side, index', m', after);
  }

  // ---------- Finding orders by position ----------

  /** No two positions of the ladder hold the same order id. */
  ghost predicate DistinctPositions(ladder: Ladder) {
    forall i, j, i', j' | 0 <= i < |ladder| && 0 <= j < |ladder[i].queue| && 0 <= i' < |ladder|
        && 0 <= j' < |ladder[i'].queue| ::
      ladder[i].queue[j].id == ladder[i'].queue[j'].id ==> i == i' && j == j'
  }

  lemma {:induction false} FindInAt(queue: seq<Entry>, j: nat)
    requires j < |queue| && forall k | 0 <= k < j :: queue[k].id != queue[j].id
    ensures FindIn(queue, queue[j].id) == Some(queue[j])
    ensures Without(queue, queue[j].id) == queue[..j] + queue[j + 1..]
  {
    if j > 0 {
      FindInAt(queue[1..], j - 1);
      assert queue[..j] + queue[j + 1..] == [queue[0]] + (queue[1..][..j - 1] + queue[1..][j..]);
    }
  }

  lemma {:induction false} FindInNone(queue: seq<Entry>, id: Uuid)
    requires forall k | 0 <= k < |queue| :: queue[k].id != id
    ensures FindIn(queue, id) == None
  {
    if queue != [] {
      FindInNone(queue[1..], id);
    }
  }

  lemma {:induction false} FindAt(ladder: Ladder, i: nat, j: nat)
    requires DistinctPositions(ladder) && i < |ladder| && j < |ladder[i].queue|
    ensures Find(ladder, ladder[i].queue[j].id) == Some(ladder[i].queue[j])
  {
    if i == 0 {
      FindInAt(ladder[0].queue, j);
    } else {
      FindInNone(ladder[0].queue, ladder[i].queue[j].id);
      FindAt(ladder[1..], i - 1, j);
    }
  }

  lemma {:induction false} FindNone(ladder: Ladder, id: Uuid)
    requires forall i, j | 0 <= i < |ladder| && 0 <= j < |ladder[i].queue| :: ladder[i].queue[j].id != id
    ensures Find(ladder, id) == None
  {
    if ladder != [] {
      FindInNone(ladder[0].queue, id);
      assert forall i, j | 0 <= i < |ladder[1..]| && 0 <= j < |ladder[1..][i].queue| ::
          ladder[1..][i].queue[j] == ladder[i + 1].queue[j];
      FindNone(ladder[1..], id);
    }
  }

  // ---------- The index ----------

  /** slices.BinarySearchFunc: the first position whose price is not better than `target`. */
  method BinarySearch(side: Side, index: seq<int>, target: int) returns (pos: nat, found: bool)
    requires Sorted(side, index)
    ensures pos <= |index|
    ensures forall i | 0 <= i < pos :: Better(side, index[i], target)
    ensures forall i | pos <= i < |index| :: !Better(side, index[i], target)
    ensures found <==> pos < |index| && index[pos] == target
    ensures found <==> target in index
  {
    var i, j := 0, |index|;
    while i < j
      invariant 0 <= i <= j <= |index|
      invariant forall k | 0 <= k < i :: Better(side, index[k], target)
      invariant forall k | j <= k < |index| :: !Better(side, index[k], target)
    {
      var h := (i + j) / 2;
      if Better(side, index[h], target) {
        i := h + 1;
      } else {
        j := h;
      }
    }
    pos := i;
    found := i < |index| && index[i] == target;
  }

  lemma {:induction false} InsertPrice(side: Side, index: seq<int>, pos: nat, price: int)
    requires Sorted(side, index) && pos <= |index| && price !in index
    requires forall i | 0 <= i < pos :: Better(side, index[i], price)
    requires forall i | pos <= i < |index| :: !Better(side, index[i], price)
    ensures var r := index[..pos] + [price] + index[pos..];
            Sorted(side, r) && forall p :: p in r <==> p in index || p == price
  {
    var r := index[..pos] + [price] + index[pos..];
    assert forall i | pos <= i < |index| :: Better(side, price, index[i]) by {
      assert forall i | pos <= i < |index| :: index[i] in index;
    }
    forall i, j | 0 <= i < j < |r| ensures Better(side, r[i], r[j]) {
      assert r[i] == if i < pos then index[i] else if i == pos then price else index[i - 1];
      assert r[j] == if j < pos then index[j] else if j == pos then price else index[j - 1];
    }
    InsertMembers(index, pos, price);
  }

  lemma {:induction false} InsertMembers(index: seq<int>, pos: nat, price: int)
    requires pos <= |index|
    ensures forall p :: p in index[..pos] + [price] + index[pos..] <==> p in index || p == price
  {
    assert index == index[..pos] + index[pos..];
  }

  lemma {:induction false} DeletePrice(side: Side, index: seq<int>, pos: nat)
    requires Sorted(side, index) && pos < |index|
    ensures var r := index[..pos] + index[pos + 1..];
            Sorted(side, r) && forall p :: p in r <==> p in index && p != index[pos]
  {
    var r := index[..pos] + index[pos + 1..];
    forall p ensures p in r <==> p in index && p != index[pos] {
      if p in index && p != index[pos] {
        var i :| 0 <= i < |index| && index[i] == p;
        assert r[if i < pos then i else i - 1] == p;
      }
    }
  }
}
