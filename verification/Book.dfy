/**
 The pointer-based order book: per price an intrusive doubly linked queue, per side a map of
 levels and a sorted price index, one id map, and a pool of recycled order nodes. Every
 operation is proved to do what its counterpart in module Matching does to the book's value.
 */
module Book {
  import opened Domain
  import opened Matching
  import opened Measures
  import opened MatchingLaws
  import opened Ladders

  class Order {
    var id: Uuid
    var user: Uuid
    var price: int
    var quantity: int
    var remaining: int
    var side: Side
    var status: Status
    var parent: PriceLevel?
    var next: Order?
    var prev: Order?

    constructor ()
      ensures Unlinked()
    {
      id, user, price, quantity, remaining := 0, 0, 0, 0, 0;
      side, status := Buy, New;
      parent, next, prev := null, null, null;
    }

    /** Makes a node a new order, keeping its links. */
    method Set(id: Uuid, user: Uuid, price: int, quantity: int, side: Side)
      modifies this
      ensures Val() == Entry(id, user, price, quantity, quantity, side)
      ensures next == old(next) && prev == old(prev) && parent == old(parent)
    {
      this.id, this.user, this.price, this.quantity, this.remaining := id, user, price, quantity, quantity;
      this.side, this.status := side, New;
    }

    predicate Unlinked()
      reads this
    {
      parent == null && next == null && prev == null
    }

    function Val(): Entry
      reads this
    {
      Entry(id, user, price, quantity, remaining, side)
    }
  }

  class PriceLevel {
    const price: int
    ghost const side: Side
    var totalVol: int
    var head: Order?
    var tail: Order?

    constructor (price: int, ghost side: Side)
      ensures this.price == price && this.side == side && totalVol == 0 && head == null && tail == null
    {
      this.price, this.side := price, side;
      totalVol, head, tail := 0, null, null;
    }

    /** The node at position `i` of `q` hangs between its neighbours, on this level. */
    ghost predicate Hangs(q: seq<Order>, i: nat)
      requires i < |q|
      reads q
    {
      && q[i].parent == this
      && q[i].next == (if i + 1 < |q| then q[i + 1] else null)
      && q[i].prev == (if i > 0 then q[i - 1] else null)
    }

    /** The level's list consists of exactly the nodes `q`, linked both ways in that order. */
    ghost predicate Lists(q: seq<Order>)
      reads this, q
    {
      && head == (if q == [] then null else q[0])
      && tail == (if q == [] then null else q[|q| - 1])
      && (forall i | 0 <= i < |q| :: Hangs(q, i))
      && (forall i, j | 0 <= i < j < |q| :: q[i] != q[j])
    }

    /** Appends a node at the tail of the list and adds its remainder to the volume. */
    method Append(order: Order, ghost q: seq<Order>, ghost all: set<Order>)
      requires Lists(q) && order.Unlinked() && order !in q && forall n | n in q :: n in all
      modifies this, all`next, order`prev, order`parent
      ensures forall n | n in all && n !in q && n != order :: unchanged(n)
      ensures Lists(q + [order])
      ensures totalVol == old(totalVol) + order.remaining
      ensures order.Val() == old(order.Val()) && forall n | n in q :: n.Val() == old(n.Val())
    {
      assert q != [] ==> q[|q| - 1] in q;
      if tail == null {
        head := order;
        tail := order;
      } else {
        order.prev := tail;
        tail.next := order;
        tail := order;
      }
      totalVol := totalVol + order.remaining;
      order.parent := this;
      ghost var q' := q + [order];
      forall i | 0 <= i < |q'| ensures Hangs(q', i) {
        if i < |q| {
          assert old(Hangs(q, i)) && q'[i] == q[i];
        }
      }
    }

    /** Takes the node at position `k` out of the list and clears its links. */
    method Unlink(order: Order, ghost q: seq<Order>, ghost k: nat, ghost all: set<Order>)
      requires Lists(q) && k < |q| && order == q[k] && forall n | n in q :: n in all
      modifies this`head, this`tail, all`next, all`prev, order`parent
      ensures forall n | n in all && n !in q :: unchanged(n)
      ensures Lists(Drop(q, k)) && order.Unlinked() && (head == null <==> |q| == 1)
      ensures forall n | n in q :: n.Val() == old(n.Val())
    {
      ghost var q' := q[..k] + q[k + 1..];
      assert Hangs(q, k);
      assert k > 0 ==> q[k - 1] in q;
      assert k + 1 < |q| ==> q[k + 1] in q;
      if order.prev != null {
        order.prev.next := order.next;
      } else {
        head := order.next;
      }
      if order.next != null {
        order.next.prev := order.prev;
      } else {
        tail := order.prev;
      }
      order.next := null;
      order.prev := null;
      order.parent := null;
      forall i | 0 <= i < |q'| ensures Hangs(q', i) {
        assert old(Hangs(q, if i < k then i else i + 1)) && q'[i] == q[if i < k then i else i + 1];
      }
    }
  }

  /** The id generator: every id it gives is new. */
  class IdGen {
    var next: nat

    constructor ()
      ensures next == 0
    {
      next := 0;
    }

    method Next() returns (id: Uuid)
      modifies this
      ensures id == old(next) && next == old(next) + 1
    {
      id := next;
      next := next + 1;
    }
  }

  class OrderBook {
    var bids: map<int, PriceLevel>
    var asks: map<int, PriceLevel>
    var bidsIndex: seq<int>
    var asksIndex: seq<int>
    var orders: map<Uuid, Order>
    var pool: set<Order>  // recycled nodes, ready for reuse
    const idGen: IdGen

    ghost var nodes: map<Slot, seq<Order>>    // the nodes linked at each price
    ghost var entries: map<Slot, seq<Entry>>  // their values
    ghost var allNodes: set<Order>        // the nodes of the lists and of the pool
    ghost var allLevels: set<PriceLevel>  // the levels

    function Levels(side: Side): map<int, PriceLevel>
      reads this
    {
      if side.Buy? then bids else asks
    }

    function Index(side: Side): seq<int>
      reads this
    {
      if side.Buy? then bidsIndex else asksIndex
    }

    // ---------- The invariant ----------

    ghost predicate NodeOk(n: Order, s: Slot, e: Entry)
      reads this, n
    {
      n.Val() == e && e.price == s.price && e.side == s.side && e.id in orders && orders[e.id] == n
    }

    ghost predicate SlotOk(s: Slot)
      requires s in nodes && s in entries
      reads this, allNodes, allLevels
    {
      && s.price in Levels(s.side)
      && var level, q := Levels(s.side)[s.price], nodes[s];
      && level in allLevels && level.price == s.price && level.side == s.side
      && (forall n | n in q :: n in allNodes)
      && q != [] && |entries[s]| == |q|
      && level.Lists(q)
      && forall j | 0 <= j < |q| :: NodeOk(q[j], s, entries[s][j])
    }

    ghost predicate OrdersOk()
      reads this, allNodes, allLevels
    {
      forall id | id in orders ::
        var o := orders[id];
        o in allNodes && o.id == id && o in Queue(nodes, Slot(o.side, o.price))
    }

    ghost predicate PoolOk()
      reads this, allNodes, allLevels
    {
      forall o | o in pool :: o in allNodes && o.Unlinked()
    }

    ghost predicate IndexesOk()
      reads this
    {
      && IndexOk(Buy, bidsIndex, entries) && IndexOk(Sell, asksIndex, entries)
      && (forall p :: p in bids <==> Slot(Buy, p) in entries)
      && (forall p :: p in asks <==> Slot(Sell, p) in entries)
      && (forall s :: s in nodes <==> s in entries)
    }

    /** Lists, index, maps and pool are consistent. */
    ghost predicate Structural()
      reads this, allNodes, allLevels
    {
      && IndexesOk()
      && (forall s | s in nodes :: SlotOk(s))
      && OrdersOk()
      && PoolOk()
    }

    /** Every level's TotalVol is the sum of its queue's remainders. */
    ghost predicate VolumeOk()
      requires Structural()
      reads this, allNodes, allLevels
    {
      forall s | s in nodes ::
        assert SlotOk(s);
        Levels(s.side)[s.price].totalVol == Sum(Volume, entries[s])
    }

    ghost predicate Valid()
      reads this, allNodes, allLevels
    {
      Structural() && VolumeOk() && EntriesOk(entries)
    }

    /** The book as a value. */
    ghost function Value(): BookValue
      reads this
    {
      BookValue(LadderOf(Buy, bidsIndex, entries), LadderOf(Sell, asksIndex, entries))
    }

    constructor (idGen: IdGen)
      ensures Valid() && allNodes == {} && allLevels == {} && Value() == EMPTY_BOOK && this.idGen == idGen
    {
      this.idGen := idGen;
      bids, asks, bidsIndex, asksIndex, orders, pool := map[], map[], [], [], map[], {};
      nodes, entries, allNodes, allLevels := map[], map[], {}, {};
    }

    lemma Parents(s: Slot)
      requires Structural() && s in nodes
      ensures SlotOk(s) && forall n | n in nodes[s] :: n.parent == Levels(s.side)[s.price]
    {
      assert SlotOk(s);
      forall n | n in nodes[s] ensures n.parent == Levels(s.side)[s.price] {
        var i :| 0 <= i < |nodes[s]| && nodes[s][i] == n;
        assert Levels(s.side)[s.price].Hangs(nodes[s], i);
      }
    }

    /** What is known of any slot, used or not. */
    lemma SlotFacts(s: Slot)
      requires Structural()
      ensures IndexesOk() && (s in nodes <==> s.price in Levels(s.side))
      ensures forall n | n in Queue(nodes, s) :: n in allNodes && n.parent != null
      ensures Queue(nodes, s) == if s in nodes then nodes[s] else []
      ensures s in nodes ==>
          var level := Levels(s.side)[s.price];
          level in allLevels && level.price == s.price && level.side == s.side && level.Lists(nodes[s])
      ensures s in nodes ==> s in entries && 0 < |nodes[s]| == |entries[s]|
    {
      hide NodeOk, PriceLevel.Lists, OrdersOk, PoolOk, Sorted;
      if s in nodes {
        Parents(s);
      } else {
        assert Queue(nodes, s) == [];
      }
    }

    /** Nodes and levels of different slots are different objects. */
    lemma SlotsDisjoint(s: Slot, s': Slot)
      requires Structural() && s in nodes && s' in nodes && s != s'
      ensures SlotOk(s) && SlotOk(s')
      ensures Levels(s.side)[s.price] != Levels(s'.side)[s'.price]
      ensures forall n | n in nodes[s] :: n !in nodes[s']
    {
      Parents(s);
      Parents(s');
    }

    /** From the old state to this one only the slot `slot`, with its level and nodes, was touched. */
    twostate predicate OnlyTouched(new slot: Slot, new level: PriceLevel)
      reads this, allNodes, allLevels
    {
      && old(Structural()) && old(allNodes) <= allNodes && old(allLevels) <= allLevels
      && (if slot in old(nodes) then level == old(Levels(slot.side)[slot.price]) else level !in old(allLevels))
      && (forall o | o in old(allNodes) && o !in Queue(old(nodes), slot) :: unchanged(o))
      && (forall l | l in old(allLevels) && l != level :: unchanged(l))
      && (forall s | s != slot :: (s in nodes <==> s in old(nodes)) && (s in entries <==> s in old(entries)))
      && (forall s | s in old(nodes) && s != slot ::
            && nodes[s] == old(nodes[s]) && entries[s] == old(entries[s])
            && s.price in Levels(s.side) && Levels(s.side)[s.price] == old(Levels(s.side)[s.price]))
      && (forall id | id in old(orders) && old(orders)[id] !in Queue(old(nodes), slot) ::
        id in orders && orders[id] == old(orders)[id])
    }

    twostate lemma OldParents(s: Slot)
      requires old(Structural()) && old(s in nodes)
      ensures old(SlotOk(s)) && forall n | n in old(nodes[s]) ::
          old(allocated(n)) && old(n.parent == Levels(s.side)[s.price])
    {
      var level, q := old(Levels(s.side)[s.price]), old(nodes[s]);
      assert old(SlotOk(s));
      forall n | n in q ensures old(n.parent) == level {
        var i :| 0 <= i < |q| && q[i] == n;
        assert old(level.Hangs(q, i));
      }
    }

    /** Then every other slot is as consistent as it was, and its level's volume is the same. */
    twostate lemma OthersKept(new slot: Slot, new level: PriceLevel, new s: Slot)
      requires OnlyTouched(slot, level)
      requires s in nodes && s != slot
      ensures SlotOk(s) && Levels(s.side)[s.price].totalVol == old(Levels(s.side)[s.price].totalVol)
    {
      var l, q := Levels(s.side)[s.price], nodes[s];
      OldParents(s);
      if slot in old(nodes) {
        OldParents(slot);
      }
      forall j | 0 <= j < |q| ensures NodeOk(q[j], s, entries[s][j]) && l.Hangs(q, j) {
        assert q[j] in q && old(NodeOk(q[j], s, entries[s][j])) && old(l.Hangs(q, j));
      }
    }

    // ---------- addOrderInternal ----------

    /** The slot's level is entered at its price, and the index lists it. */
    twostate predicate Indexed(new slot: Slot, new level: PriceLevel)
      reads this
    {
      && Levels(slot.side) == old(Levels(slot.side))[slot.price := level]
      && Levels(slot.side.Opposite()) == old(Levels(slot.side.Opposite()))
      && Sorted(slot.side, Index(slot.side))
      && (forall p :: p in Index(slot.side) <==> p in old(Index(slot.side)) || p == slot.price)
      && Index(slot.side.Opposite()) == old(Index(slot.side.Opposite()))
    }

    /** The level at a price, created with its place in the index if there is none. */
    method LevelFor(side: Side, price: int) returns (level: PriceLevel)
      requires IndexesOk()
      modifies this`bids, this`asks, this`bidsIndex, this`asksIndex
      ensures Indexed(Slot(side, price), level)
      ensures if old(price in Levels(side)) then level == old(Levels(side)[price])
              else fresh(level) && level.price == price && level.side == side && level.totalVol == 0 && level.Lists([])
    {
      if price in Levels(side) {
        level := Levels(side)[price];
      } else {
        level := new PriceLevel(price, side);
        var pos, _ := BinarySearch(side, Index(side), price);
        InsertPrice(side, Index(side), pos, price);
        if side == Buy {
          bids := bids[price := level];
          bidsIndex := bidsIndex[..pos] + [price] + bidsIndex[pos..];
        } else {
          asks := asks[price := level];
          asksIndex := asksIndex[..pos] + [price] + asksIndex[pos..];
        }
      }
    }

    /** The ghost maps and the id map gained `order` at the end of its slot. */
    twostate predicate Filed(order: Order, new slot: Slot)
      reads this, order
    {
      && slot == Slot(order.side, order.price)
      && nodes == old(nodes)[slot := Queue(old(nodes), slot) + [order]]
      && entries == old(entries)[slot := Queue(old(entries), slot) + [order.Val()]]
      && orders == old(orders)[order.id := order] && pool == old(pool)
    }

    /** `order` stands at the end of the list of `level`, whose other nodes kept their values. */
    twostate predicate Linked(order: Order, new slot: Slot, new level: PriceLevel)
      reads this, allNodes, allLevels
    {
      && order !in old(allNodes) && order in allNodes && level in allLevels
      && (forall n | n in Queue(old(nodes), slot) :: n in old(allNodes) && n in allNodes && n.Val() == old(n.Val()))
      && level.price == slot.price && level.side == slot.side
      && (forall n | n in Queue(nodes, slot) :: n in allNodes) && level.Lists(Queue(nodes, slot))
    }

    twostate predicate Appended(order: Order, new slot: Slot, new level: PriceLevel)
      reads this, allNodes, allLevels, order
    {
      && OnlyTouched(slot, level) && order.id !in old(orders)
      && Filed(order, slot) && Indexed(slot, level) && Linked(order, slot, level)
    }

    twostate lemma OldNode(new slot: Slot, new j: nat)
      requires old(Structural()) && slot in old(nodes) && j < |old(nodes)[slot]|
      ensures slot in old(entries) && |old(entries)[slot]| == |old(nodes)[slot]|
      ensures old(allocated(nodes[slot][j])) && old(NodeOk(nodes[slot][j], slot, entries[slot][j]))
    {
      hide OrdersOk, PoolOk, IndexOk, PriceLevel.Lists;
      assert old(SlotOk(slot));
    }

    twostate lemma AppendedNode(order: Order, new slot: Slot, new level: PriceLevel, new j: nat)
      requires Appended(order, slot, level) && slot in nodes && j < |nodes[slot]|
      ensures slot in entries && |entries[slot]| == |nodes[slot]| && NodeOk(nodes[slot][j], slot, entries[slot][j])
    {
      hide SlotOk, OrdersOk, PoolOk, IndexesOk, Structural, PriceLevel.Lists, Indexed;
      AppendedShape(order, slot, level);
      if j < |nodes[slot]| - 1 {
        OldNode(slot, j);
        assert nodes[slot][j] in Queue(old(nodes), slot);
      }
    }

    twostate lemma AppendedShape(order: Order, new slot: Slot, new level: PriceLevel)
      requires Appended(order, slot, level)
      ensures old(Structural()) && |Queue(old(nodes), slot)| == |Queue(old(entries), slot)|
      ensures slot.price in Levels(slot.side) && Levels(slot.side)[slot.price] == level
    {
      hide SlotOk, OrdersOk, PoolOk, PriceLevel.Lists, Sorted, IndexOk;
      if slot in old(nodes) {
        OldNodes(slot);
      }
    }

    twostate lemma OldNodes(new slot: Slot)
      requires old(Structural()) && slot in old(nodes)
      ensures slot in old(entries) && |old(entries)[slot]| == |old(nodes)[slot]| && old(nodes)[slot] != []
    {
      hide OrdersOk, PoolOk, IndexOk, PriceLevel.Lists, NodeOk;
      assert old(SlotOk(slot));
    }

    twostate lemma AppendedSlots(order: Order, new slot: Slot, new level: PriceLevel, new s: Slot)
      requires Appended(order, slot, level) && s in nodes
      ensures s in entries && SlotOk(s)
    {
      if s != slot {
        hide Filed, Indexed, Linked;
        OthersKept(slot, level, s);
      } else {
        hide SlotOk, OrdersOk, PoolOk, IndexesOk, Structural, PriceLevel.Lists, Indexed, OnlyTouched, NodeOk;
        AppendedShape(order, slot, level);
        forall j | 0 <= j < |nodes[slot]| ensures NodeOk(nodes[slot][j], slot, entries[slot][j]) {
          AppendedNode(order, slot, level, j);
        }
        SlotIntro(slot);
      }
    }

    twostate lemma AppendedOrders(order: Order, new slot: Slot, new level: PriceLevel)
      requires Appended(order, slot, level)
      ensures OrdersOk()
    {
      hide SlotOk, PriceLevel.Lists;
      forall id | id in orders ensures orders[id] in allNodes && orders[id].id == id
        && orders[id] in Queue(nodes, Slot(orders[id].side, orders[id].price))
      {
        if id != order.id {
          var o := old(orders)[id];
          assert old(o in allNodes && o.id == id && o in Queue(nodes, Slot(o.side, o.price)));
          assert o in Queue(old(nodes), slot) ==> o.Val() == old(o.Val());
          assert o.Val() == old(o.Val());
        }
      }
    }

    /** Free nodes are on no list, so whatever happens to one slot leaves them free. */
    twostate lemma PoolKept(new slot: Slot, new level: PriceLevel)
      requires OnlyTouched(slot, level) && pool == old(pool)
      ensures PoolOk()
    {
      hide SlotOk, PriceLevel.Lists;
      if slot in old(nodes) {
        OldParents(slot);
      }
      forall o | o in pool ensures o in allNodes && o.Unlinked() {
        assert old(o in allNodes && o.Unlinked());
      }
    }

    twostate lemma AppendedIndexes(order: Order, new slot: Slot, new level: PriceLevel)
      requires old(IndexesOk()) && Filed(order, slot) && Indexed(slot, level)
      ensures IndexesOk()
    {}

    twostate lemma AppendedValid(order: Order, new slot: Slot, new level: PriceLevel)
      requires Appended(order, slot, level)
      ensures Structural()
    {
      AppendedOrders(order, slot, level);
      AppendedIndexes(order, slot, level);
      PoolKept(slot, level);
      hide SlotOk, OrdersOk, PoolOk, IndexesOk, PriceLevel.Lists;
      forall s | s in nodes ensures s in entries && SlotOk(s) {
        AppendedSlots(order, slot, level, s);
      }
    }

    twostate lemma AppendedVolume(order: Order, new slot: Slot, new level: PriceLevel)
      requires Appended(order, slot, level) && Structural() && old(VolumeOk())
      requires level.totalVol
          == (if slot in old(nodes) then old(Levels(slot.side)[slot.price].totalVol) else 0) + order.remaining
      ensures VolumeOk()
    {
      hide OnlyTouched, Linked, Indexed, SlotOk;
      forall s | s in nodes ensures SlotOk(s) && Levels(s.side)[s.price].totalVol == Sum(Volume, entries[s]) {
        AppendedVolumeAt(order, slot, level, s);
      }
    }

    twostate lemma AppendedVolumeAt(order: Order, new slot: Slot, new level: PriceLevel, new s: Slot)
      requires Appended(order, slot, level) && Structural() && old(VolumeOk()) && s in nodes
      requires level.totalVol
          == (if slot in old(nodes) then old(Levels(slot.side)[slot.price].totalVol) else 0) + order.remaining
      ensures SlotOk(s) && Levels(s.side)[s.price].totalVol == Sum(Volume, entries[s])
    {
      hide PriceLevel.Lists, NodeOk;
      if s != slot {
        OthersKept(slot, level, s);
      } else {
        SumConcat(Volume, Queue(old(entries), slot), [order.Val()]);
        assert Sum(Volume, [order.Val()]) == order.remaining;
      }
    }

    /** Puts `order` at the end of the queue at its price. */
    method Enqueue(order: Order, ghost slot: Slot, ghost q: seq<Order>) returns (level: PriceLevel)
      requires Structural() && order !in allNodes && order.Unlinked()
      requires slot == Slot(order.side, order.price) && q == Queue(nodes, slot)
      modifies this`bids, this`asks, this`bidsIndex, this`asksIndex
      modifies allLevels, allNodes, order
      ensures if slot in nodes then level in allLevels && level == old(Levels(slot.side)[slot.price]) else fresh(level)
      ensures order.Val() == old(order.Val()) && forall n | n in q :: n in allNodes && n.Val() == old(n.Val())
      ensures forall o | o in allNodes && o !in q :: unchanged(o)
      ensures forall l | l in allLevels && l != level :: unchanged(l)
      ensures Indexed(slot, level)
      ensures level.price == slot.price && level.side == slot.side && level.Lists(q + [order])
      ensures level.totalVol == (if slot in nodes then old(level.totalVol) else 0) + order.remaining
    {
      hide *;
      SlotFacts(slot);
      level := LevelFor(order.side, order.price);
      level.Append(order, q, allNodes);
    }

    /** Enters `order`, already at the end of its level's list, in the maps. */
    method File(order: Order, level: PriceLevel, ghost slot: Slot)
      requires slot == Slot(order.side, order.price)
      modifies this`orders, this`nodes, this`entries, this`allNodes, this`allLevels
      ensures Filed(order, slot)
      ensures allNodes == old(allNodes) + {order} && allLevels == old(allLevels) + {level}
    {
      orders := orders[order.id := order];
      nodes := nodes[slot := Queue(nodes, slot) + [order]];
      entries := entries[slot := Queue(entries, slot) + [order.Val()]];
      allNodes, allLevels := allNodes + {order}, allLevels + {level};
    }

    twostate lemma OldSlot(new s: Slot)
      requires old(Structural()) && s in old(nodes)
      ensures s in old(entries) && s.price in old(Levels(s.side))
    {
      hide OrdersOk, PoolOk, IndexOk;
      assert old(SlotOk(s));
    }

    twostate lemma IndexedOthers(new slot: Slot, new level: PriceLevel, new s: Slot)
      requires Indexed(slot, level) && s != slot && s.price in old(Levels(s.side))
      ensures s.price in Levels(s.side) && Levels(s.side)[s.price] == old(Levels(s.side))[s.price]
    {
      hide Sorted;
    }

    /** What holds once `order` is linked and filed makes only its slot touched. */
    twostate lemma FiledTouchesOnly(order: Order, new slot: Slot, new level: PriceLevel)
      requires old(Structural()) && old(allNodes) <= allNodes && old(allLevels) <= allLevels
      requires if slot in old(nodes) then level == old(Levels(slot.side)[slot.price]) else level !in old(allLevels)
      requires forall o | o in old(allNodes) && o !in Queue(old(nodes), slot) :: unchanged(o)
      requires forall l | l in old(allLevels) && l != level :: unchanged(l)
      requires Filed(order, slot) && Indexed(slot, level) && order.id !in old(orders)
      ensures OnlyTouched(slot, level)
    {
      hide SlotOk, OrdersOk, PoolOk, IndexesOk, Structural, Indexed, Levels, Order.Val;
      forall s | s in old(nodes) && s != slot
        ensures nodes[s] == old(nodes)[s] && s in old(entries) && entries[s] == old(entries)[s]
        ensures s.price in Levels(s.side) && s.price in old(Levels(s.side))
        ensures Levels(s.side)[s.price] == old(Levels(s.side))[s.price]
      {
        OldSlot(s);
        IndexedOthers(slot, level, s);
      }
    }

    /** Appends `order` at its price and files it under its id. */
    method LinkOrder(order: Order, ghost slot: Slot) returns (level: PriceLevel)
      requires Structural() && order !in allNodes && order.Unlinked()
      requires slot == Slot(order.side, order.price)
      modifies this, allNodes, allLevels, order
      ensures allNodes == old(allNodes) + {order} && allLevels == old(allLevels) + {level}
      ensures order.Val() == old(order.Val()) && slot == Slot(order.side, order.price)
      ensures if slot in old(nodes) then level in old(allLevels) && level == old(Levels(slot.side)[slot.price])
          else fresh(level)
      ensures forall o | o in old(allNodes) && o !in Queue(old(nodes), slot) :: unchanged(o)
      ensures forall l | l in old(allLevels) && l != level :: unchanged(l)
      ensures forall l | l in allLevels :: l in old(allLevels) || fresh(l)
      ensures Filed(order, slot) && Indexed(slot, level) && Linked(order, slot, level)
      ensures level.totalVol == (if slot in old(nodes) then old(level.totalVol) else 0) + order.remaining
    {
      hide SlotOk, OrdersOk, PoolOk, IndexesOk, PriceLevel.Lists, Sorted;
      ghost var q := Queue(nodes, slot);
      level := Enqueue(order, slot, q);
      File(order, level, slot);
    }

    /** Linking and filing an order of a new id keeps the invariant. */
    twostate lemma LinkedKeepsInvariant(order: Order, new slot: Slot, new level: PriceLevel)
      requires old(Structural() && VolumeOk())
      requires allNodes == old(allNodes) + {order} && allLevels == old(allLevels) + {level}
      requires if slot in old(nodes) then level in old(allLevels) && level == old(Levels(slot.side)[slot.price])
          else level !in old(allLevels)
      requires forall o | o in old(allNodes) && o !in Queue(old(nodes), slot) :: unchanged(o)
      requires forall l | l in old(allLevels) && l != level :: unchanged(l)
      requires Filed(order, slot) && Indexed(slot, level) && Linked(order, slot, level)
      requires level.totalVol == (if slot in old(nodes) then old(level.totalVol) else 0) + order.remaining
      requires order.id !in old(orders)
      ensures Structural() && VolumeOk()
    {
      FiledTouchesOnly(order, slot, level);
      hide *;
      assert Appended(order, slot, level);
      AppendedValid(order, slot, level);
      AppendedVolume(order, slot, level);
    }

    /** An order still linked at its price, whose id leads to another order. */
    ghost predicate Shadowed(o: Order)
      reads this, o
    {
      o in Queue(nodes, Slot(o.side, o.price)) && o.id in orders && orders[o.id] != o
    }

    /** While the invariant holds, the id of a linked order leads to it. */
    lemma LinkedIsReached(o: Order)
      requires Structural() && o in Queue(nodes, Slot(o.side, o.price))
      ensures o.id in orders && orders[o.id] == o
    {
      hide OrdersOk, PoolOk, IndexOk, PriceLevel.Lists;
      var s := Slot(o.side, o.price);
      var j :| 0 <= j < |nodes[s]| && nodes[s][j] == o;
      assert SlotOk(s);
      assert NodeOk(nodes[s][j], s, entries[s][j]);
    }

    lemma ShadowedBreaks(o: Order)
      requires Shadowed(o)
      ensures !Structural()
    {
      hide Structural;
      if Structural() {
        LinkedIsReached(o);
      }
    }

    /** Filing an order under an id in use leaves the order that had the id linked, but out of reach. */
    twostate lemma RepeatedId(order: Order, new slot: Slot, new level: PriceLevel)
      requires old(Structural()) && order.id in old(orders)
      requires forall o | o in old(allNodes) && o !in Queue(old(nodes), slot) :: unchanged(o)
      requires Filed(order, slot) && Linked(order, slot, level)
      ensures Shadowed(old(orders)[order.id])
    {
      hide SlotOk, OrdersOk, PoolOk, IndexesOk, Structural, PriceLevel.Lists;
      var o := old(orders)[order.id];
      OldFiled(order.id);
      assert o.Val() == old(o.Val());
    }

    /**
     Links an order at the end of the queue at its price. The id map is overwritten, whatever it
     held: with a new id the invariant is kept, with one in use the order that had it is shadowed.
     */
    method AddOrder(order: Order)
      requires Structural() && VolumeOk() && order !in allNodes && order.Unlinked()
      modifies this, allNodes, allLevels, order
      ensures IndexesOk()
      ensures order.id !in old(orders) ==> Structural() && VolumeOk()
      ensures order.id in old(orders) ==> Shadowed(old(orders)[order.id])
      ensures allNodes == old(allNodes) + {order}
      ensures old(allLevels) <= allLevels && forall l | l in allLevels :: l in old(allLevels) || fresh(l)
      ensures order.Val() == old(order.Val())
      ensures Filed(order, Slot(order.side, order.price))
    {
      hide *;
      ghost var slot := Slot(order.side, order.price);
      StructuralIndexes();
      var level := LinkOrder(order, slot);
      AppendedIndexes(order, slot, level);
      FiledInvariant(order, slot, level);
    }

    lemma StructuralIndexes()
      requires Structural()
      ensures IndexesOk()
    {}

    twostate lemma FiledInvariant(order: Order, new slot: Slot, new level: PriceLevel)
      requires old(Structural() && VolumeOk())
      requires allNodes == old(allNodes) + {order} && allLevels == old(allLevels) + {level}
      requires if slot in old(nodes) then level in old(allLevels) && level == old(Levels(slot.side)[slot.price])
          else level !in old(allLevels)
      requires forall o | o in old(allNodes) && o !in Queue(old(nodes), slot) :: unchanged(o)
      requires forall l | l in old(allLevels) && l != level :: unchanged(l)
      requires Filed(order, slot) && Indexed(slot, level) && Linked(order, slot, level)
      requires level.totalVol == (if slot in old(nodes) then old(level.totalVol) else 0) + order.remaining
      ensures order.id !in old(orders) ==> Structural() && VolumeOk()
      ensures order.id in old(orders) ==> Shadowed(old(orders)[order.id])
    {
      hide *;
      if order.id in old(orders) {
        RepeatedId(order, slot, level);
      } else {
        LinkedKeepsInvariant(order, slot, level);
      }
    }

    // ---------- removeOrderInternal ----------

    /** The volumes are right but for `amount` already taken off the level at `slot`. */
    ghost predicate VolumeBut(slot: Slot, amount: int)
      requires Structural()
      reads this, allNodes, allLevels
    {
      forall s | s in nodes ::
        assert SlotOk(s);
        Levels(s.side)[s.price].totalVol == Sum(Volume, entries[s]) - if s == slot then amount else 0
    }

    /** `order` left position `k` of its slot, the id map, and joined the pool. */
    twostate predicate Unfiled(order: Order, new slot: Slot, new k: nat)
      requires slot in old(nodes) && slot in old(entries) && k < |old(nodes)[slot]| && k < |old(entries)[slot]|
      reads this
    {
      && nodes == SetQueue(old(nodes), slot, Drop(old(nodes)[slot], k))
      && entries == SetQueue(old(entries), slot, Drop(old(entries)[slot], k))
      && orders == old(orders) - {old(order.id)} && pool == old(pool) + {order}
    }

    /** The price is off the index and its level off the map exactly when its queue is gone. */
    twostate predicate Deindexed(new slot: Slot, new gone: bool)
      reads this
    {
      && Levels(slot.side) == (if gone then old(Levels(slot.side)) - {slot.price} else old(Levels(slot.side)))
      && Levels(slot.side.Opposite()) == old(Levels(slot.side.Opposite()))
      && Sorted(slot.side, Index(slot.side))
      && (forall p :: p in Index(slot.side) <==> p in old(Index(slot.side)) && !(gone && p == slot.price))
      && Index(slot.side.Opposite()) == old(Index(slot.side.Opposite()))
    }

    /** `order` is off the list of `level`; all the list's nodes kept their values. */
    twostate predicate Delinked(order: Order, new slot: Slot, new level: PriceLevel)
      reads this, allNodes, allLevels
    {
      && order in allNodes && order.Unlinked() && level in allLevels
      && (forall n | n in Queue(old(nodes), slot) :: n in old(allNodes) && n in allNodes && n.Val() == old(n.Val()))
      && (forall n | n in Queue(nodes, slot) :: n in allNodes) && level.Lists(Queue(nodes, slot))
    }

    twostate predicate Removed(order: Order, new slot: Slot, new k: nat, new level: PriceLevel)
      reads this, allNodes, allLevels
    {
      && OnlyTouched(slot, level)
      && slot in old(nodes) && old(SlotOk(slot)) && k < |old(nodes)[slot]| && old(nodes)[slot][k] == order
      && Unfiled(order, slot, k) && Deindexed(slot, |old(nodes)[slot]| == 1) && Delinked(order, slot, level)
    }

    twostate lemma RemovedNode(order: Order, new slot: Slot, new k: nat, new level: PriceLevel, new i: nat)
      requires Removed(order, slot, k, level) && i < |old(nodes)[slot]| && i != k && slot in old(entries)
      ensures old(nodes)[slot][i] in allNodes && |old(entries)[slot]| == |old(nodes)[slot]|
      ensures NodeOk(old(nodes)[slot][i], slot, old(entries)[slot][i])
    {
      hide OnlyTouched, Deindexed, PriceLevel.Hangs;
      var q := old(nodes)[slot];
      assert old(NodeOk(q[k], slot, entries[slot][k])) && old(NodeOk(q[i], slot, entries[slot][i]));
      assert q[i] in q && q[k] in q;
    }

    twostate lemma RemovedSlots(order: Order, new slot: Slot, new k: nat, new level: PriceLevel, new s: Slot)
      requires Removed(order, slot, k, level) && s in nodes
      ensures s in entries && SlotOk(s)
    {
      if s != slot {
        hide Unfiled, Deindexed, Delinked;
        OthersKept(slot, level, s);
      } else {
        RemovedOwnSlot(order, slot, k, level);
      }
    }

    twostate lemma RemovedOwnSlot(order: Order, new slot: Slot, new k: nat, new level: PriceLevel)
      requires Removed(order, slot, k, level) && slot in nodes
      ensures slot in entries && SlotOk(slot)
    {
      hide *;
      RemovedShape(order, slot, k, level);
      var q, e := old(nodes)[slot], old(entries)[slot];
      DropAt(q, k);
      DropAt(e, k);
      forall j | 0 <= j < |nodes[slot]| ensures NodeOk(nodes[slot][j], slot, entries[slot][j]) {
        RemovedNode(order, slot, k, level, if j < k then j else j + 1);
      }
      SlotIntro(slot);
    }

    lemma SlotIntro(s: Slot)
      requires s in nodes && s in entries && s.price in Levels(s.side)
      requires nodes[s] != [] && |entries[s]| == |nodes[s]| && forall n | n in nodes[s] :: n in allNodes
      requires var level := Levels(s.side)[s.price];
               level in allLevels && level.price == s.price && level.side == s.side && level.Lists(nodes[s])
      requires forall j | 0 <= j < |nodes[s]| :: NodeOk(nodes[s][j], s, entries[s][j])
      ensures SlotOk(s)
    {
      hide NodeOk, PriceLevel.Lists;
    }

    /** The slot left by a removal: its queue without position `k`, on the same level. */
    twostate lemma RemovedShape(order: Order, new slot: Slot, new k: nat, new level: PriceLevel)
      requires Removed(order, slot, k, level) && slot in nodes
      ensures slot in old(nodes) && slot in old(entries) && slot in entries
      ensures k < |old(nodes)[slot]| == |old(entries)[slot]|
      ensures nodes[slot] == Drop(old(nodes)[slot], k) && entries[slot] == Drop(old(entries)[slot], k)
      ensures slot.price in Levels(slot.side) && Levels(slot.side)[slot.price] == level
      ensures level in allLevels && level.price == slot.price && level.side == slot.side && level.Lists(nodes[slot])
      ensures nodes[slot] != [] && forall n | n in nodes[slot] :: n in allNodes
    {
      RemovedLevel(slot, level);
      hide PriceLevel.Lists, NodeOk, OnlyTouched, Sorted;
      DropAt(old(nodes)[slot], k);
      DropAt(old(entries)[slot], k);
    }

    twostate lemma RemovedLevel(new slot: Slot, new level: PriceLevel)
      requires OnlyTouched(slot, level) && slot in old(nodes)
      ensures old(SlotOk(slot)) && level == old(Levels(slot.side)[slot.price]) && level in allLevels
      ensures level.price == slot.price && level.side == slot.side
    {
      OldParents(slot);
    }

    twostate lemma RemovedOrders(order: Order, new slot: Slot, new k: nat, new level: PriceLevel)
      requires Removed(order, slot, k, level)
      ensures OrdersOk()
    {
      forall id | id in orders ensures orders[id] in allNodes && orders[id].id == id
        && orders[id] in Queue(nodes, Slot(orders[id].side, orders[id].price))
      {
        RemovedOrder(order, slot, k, level, id);
      }
    }

    twostate lemma RemovedOrder(order: Order, new slot: Slot, new k: nat, new level: PriceLevel, new id: Uuid)
      requires Removed(order, slot, k, level) && id in orders
      ensures orders[id] in allNodes && orders[id].id == id
      ensures orders[id] in Queue(nodes, Slot(orders[id].side, orders[id].price))
    {
      hide SlotOk, OrdersOk, IndexesOk, PoolOk, PriceLevel.Lists, Drop, SetQueue, OnlyTouched, Deindexed, Delinked;
      var q, o := old(nodes)[slot], old(orders)[id];
      RemovedWas(order, slot, k, level);
      OldFiled(id);
      RemovedKeepsVal(order, slot, k, level, o);
      DropAt(q, k);
      SetQueueTwice(old(nodes), slot, Drop(q, k), []);
      SetQueueOthers(old(nodes), slot, Drop(q, k));
    }

    twostate lemma OldFiled(new id: Uuid)
      requires old(Structural()) && id in old(orders)
      ensures var o := old(orders)[id];
              o in old(allNodes) && old(allocated(o)) && old(o.id) == id
                  && o in Queue(old(nodes), Slot(old(o.side), old(o.price)))
    {
      hide IndexesOk, SlotOk, PoolOk;
      var o := old(orders)[id];
      assert old(o in allNodes && o.id == id && o in Queue(nodes, Slot(o.side, o.price)));
    }

    /** The removed order was filed under its id, and the nodes of its slot were in use. */
    twostate lemma RemovedWas(order: Order, new slot: Slot, new k: nat, new level: PriceLevel)
      requires Removed(order, slot, k, level)
      ensures old(Structural()) && old(allNodes) <= allNodes
      ensures slot in old(entries) && k < |old(entries)[slot]|
      ensures old(order.id) in old(orders) && old(orders)[old(order.id)] == order
    {
      hide OrdersOk, PoolOk, PriceLevel.Lists;
      var q := old(nodes)[slot];
      assert old(NodeOk(q[k], slot, entries[slot][k]));
    }

    twostate lemma RemovedKeepsVal(order: Order, new slot: Slot, new k: nat, new level: PriceLevel, new o: Order)
      requires Removed(order, slot, k, level) && o in old(allNodes)
      ensures old(allocated(o)) && o.Val() == old(o.Val())
    {
      hide SlotOk, PriceLevel.Lists, Deindexed, Unfiled;
    }

    twostate lemma RemovedPool(order: Order, new slot: Slot, new k: nat, new level: PriceLevel)
      requires Removed(order, slot, k, level)
      ensures PoolOk()
    {
      hide SlotOk, PriceLevel.Lists;
      OldParents(slot);
      forall o | o in pool ensures o in allNodes && o.Unlinked() {
        assert o in old(pool) ==> old(o in allNodes && o.Unlinked());
      }
    }

    twostate lemma RemovedIndexes(order: Order, new slot: Slot, new k: nat)
      requires old(IndexesOk()) && slot in old(nodes) && slot in old(entries)
      requires |old(nodes)[slot]| == |old(entries)[slot]| && k < |old(nodes)[slot]|
      requires Unfiled(order, slot, k) && Deindexed(slot, |old(nodes)[slot]| == 1)
      ensures IndexesOk()
    {}

    twostate lemma RemovedStructural(order: Order, new slot: Slot, new k: nat, new level: PriceLevel)
      requires Removed(order, slot, k, level)
      ensures Structural()
    {
      RemovedOrders(order, slot, k, level);
      RemovedIndexes(order, slot, k);
      RemovedPool(order, slot, k, level);
      hide SlotOk, OrdersOk, PoolOk, IndexesOk, PriceLevel.Lists;
      forall s | s in nodes ensures s in entries && SlotOk(s) {
        RemovedSlots(order, slot, k, level, s);
      }
    }

    twostate lemma RemovedVolumeAt(order: Order, new slot: Slot, new k: nat, new level: PriceLevel, new s: Slot)
      requires Removed(order, slot, k, level) && Structural() && s in nodes
      requires old(VolumeBut(slot, order.remaining)) && level.totalVol == old(level.totalVol)
      ensures SlotOk(s) && Levels(s.side)[s.price].totalVol == Sum(Volume, entries[s])
    {
      if s != slot {
        hide Unfiled, Deindexed, Delinked;
        OthersKept(slot, level, s);
      } else {
        RemovedOwnVolume(order, slot, k, level);
      }
    }

    twostate lemma RemovedOwnVolume(order: Order, new slot: Slot, new k: nat, new level: PriceLevel)
      requires Removed(order, slot, k, level) && Structural() && slot in nodes
      requires old(VolumeBut(slot, order.remaining)) && level.totalVol == old(level.totalVol)
      ensures SlotOk(slot) && Levels(slot.side)[slot.price].totalVol == Sum(Volume, entries[slot])
    {
      RemovedShape(order, slot, k, level);
      RemovedLevel(slot, level);
      assert old(NodeOk(nodes[slot][k], slot, entries[slot][k]));
      hide OnlyTouched, PriceLevel.Lists, Delinked, Deindexed, Unfiled, OrdersOk, PoolOk, IndexesOk, Sum;
      SumRemove(Volume, old(entries)[slot], k);
    }

    twostate lemma RemovedVolume(order: Order, new slot: Slot, new k: nat, new level: PriceLevel)
      requires Removed(order, slot, k, level) && Structural()
      requires old(VolumeBut(slot, order.remaining)) && level.totalVol == old(level.totalVol)
      ensures VolumeOk()
    {
      forall s | s in nodes ensures SlotOk(s) && Levels(s.side)[s.price].totalVol == Sum(Volume, entries[s]) {
        hide *;
        RemovedVolumeAt(order, slot, k, level, s);
      }
    }

    /** Takes the price of an emptied level off the index and the level off its map. */
    method DeleteIfEmpty(level: PriceLevel, side: Side, price: int)
      requires IndexesOk() && price in Levels(side)
      modifies this`bids, this`asks, this`bidsIndex, this`asksIndex
      ensures Deindexed(Slot(side, price), level.head == null)
    {
      if level.head != null {
        return;
      }
      var pos, found := BinarySearch(side, Index(side), price);
      if found {
        DeletePrice(side, Index(side), pos);
        if side == Buy {
          bidsIndex := bidsIndex[..pos] + bidsIndex[pos + 1..];
        } else {
          asksIndex := asksIndex[..pos] + asksIndex[pos + 1..];
        }
      }
      if side == Buy {
        bids := bids - {price};
      } else {
        asks := asks - {price};
      }
    }

    /** What removing the node at position `k` of `slot` starts from. */
    ghost predicate NodeAt(order: Order, slot: Slot, k: nat)
      reads this, allNodes, allLevels
    {
      && slot in nodes && slot in entries && k < |nodes[slot]| && nodes[slot][k] == order && SlotOk(slot)
      && order.id in orders && orders[order.id] == order && order.side == slot.side && order.price == slot.price
      && order in allNodes && order.parent == Levels(slot.side)[slot.price]
    }

    lemma NodeAtIntro(order: Order, slot: Slot, k: nat)
      requires Structural() && slot in nodes && k < |nodes[slot]| && nodes[slot][k] == order
      ensures NodeAt(order, slot, k) && order.side == slot.side && order.price == slot.price && order.id in orders
      ensures slot in entries && slot.price in Levels(slot.side) && order.parent == Levels(slot.side)[slot.price]
      ensures order.parent in allLevels
      ensures order.Val() == entries[slot][k] && |entries[slot]| == |nodes[slot]|
    {
      Parents(slot);
      assert NodeOk(nodes[slot][k], slot, entries[slot][k]);
    }

    /** Takes the node out of its level's list, and the level off the book when that empties it. */
    method Delink(order: Order, level: PriceLevel, ghost slot: Slot, ghost q: seq<Order>, ghost k: nat)
      requires Structural() && slot in nodes && q == nodes[slot] && k < |q|
      requires order == q[k] && level == Levels(slot.side)[slot.price]
      requires NodeAt(order, slot, k) && order.side == slot.side && order.price == slot.price
      modifies this`bids, this`asks, this`bidsIndex, this`asksIndex
      modifies level, allNodes
      ensures Deindexed(slot, |q| == 1)
      ensures level.Lists(Drop(q, k)) && order.Unlinked() && level.totalVol == old(level.totalVol)
      ensures forall o | o in allNodes && o !in q :: unchanged(o)
      ensures forall n | n in q :: n in allNodes && n.Val() == old(n.Val())
    {
      hide SlotOk, PriceLevel.Lists, PriceLevel.Hangs, Sorted, IndexesOk, OrdersOk, PoolOk, NodeOk, Order.Val, NodeAt;
      hide Structural;
      SlotFacts(slot);
      level.Unlink(order, q, k, allNodes);
      DeleteIfEmpty(level, order.side, order.price);
    }

    /** Drops `order` from the maps and returns its node to the pool. */
    method Unfile(order: Order, ghost slot: Slot, ghost k: nat)
      requires slot in nodes && slot in entries && k < |nodes[slot]| && k < |entries[slot]|
      modifies this`orders, this`nodes, this`entries, this`pool
      ensures Unfiled(order, slot, k)
    {
      orders := orders - {order.id};
      nodes, entries := SetQueue(nodes, slot, Drop(nodes[slot], k)), SetQueue(entries, slot, Drop(entries[slot], k));
      pool := pool + {order};
    }

    twostate lemma RemovedTouchesOnly(order: Order, new slot: Slot, new k: nat, new level: PriceLevel)
      requires old(Structural()) && allNodes == old(allNodes) && allLevels == old(allLevels)
      requires old(NodeAt(order, slot, k) && |nodes[slot]| == |entries[slot]|) && level == old(order.parent)
      requires forall o | o in old(allNodes) && o !in old(nodes)[slot] :: unchanged(o)
      requires forall l | l in old(allLevels) && l != level :: unchanged(l)
      requires Unfiled(order, slot, k) && Deindexed(slot, |old(nodes)[slot]| == 1)
      ensures OnlyTouched(slot, level)
    {
      hide PriceLevel.Lists, Drop, OrdersOk, PoolOk, SlotOk, IndexesOk, Structural, Deindexed, Levels, SetQueue;
      hide Order.Val;
      assert old(nodes)[slot][k] in old(nodes)[slot];
      forall s | s != slot
        ensures (s in nodes <==> s in old(nodes)) && (s in entries <==> s in old(entries))
        ensures s in old(nodes) ==> s in old(entries) && nodes[s] == old(nodes)[s] && entries[s] == old(entries)[s]
        ensures s in old(nodes) ==>
          s.price in Levels(s.side) && s.price in old(Levels(s.side))
              && Levels(s.side)[s.price] == old(Levels(s.side))[s.price]
      {
        SetQueueOther(old(nodes), slot, Drop(old(nodes)[slot], k), s);
        SetQueueOther(old(entries), slot, Drop(old(entries)[slot], k), s);
        if s in old(nodes) {
          OldSlot(s);
          DeindexedOthers(slot, |old(nodes)[slot]| == 1, s);
        }
      }
    }

    twostate lemma DeindexedOthers(new slot: Slot, new gone: bool, new s: Slot)
      requires Deindexed(slot, gone) && s != slot && s.price in old(Levels(s.side))
      ensures s.price in Levels(s.side) && Levels(s.side)[s.price] == old(Levels(s.side))[s.price]
    {
      hide Sorted;
    }

    twostate lemma RemovedDelinks(order: Order, new slot: Slot, new k: nat, new level: PriceLevel)
      requires old(NodeAt(order, slot, k) && |nodes[slot]| == |entries[slot]|) && level == old(order.parent)
      requires allNodes == old(allNodes) && allLevels == old(allLevels)
      requires forall n | n in old(nodes)[slot] :: n in allNodes && n.Val() == old(n.Val())
      requires Unfiled(order, slot, k) && level.Lists(Drop(old(nodes)[slot], k)) && order.Unlinked()
      ensures Delinked(order, slot, level)
    {
      DropAt(old(nodes)[slot], k);
      DropAt(old(entries)[slot], k);
      assert Queue(nodes, slot) == Drop(old(nodes)[slot], k);
      hide PriceLevel.Lists, NodeOk, Drop;
    }

    /** Unlinking and unfiling an order keeps the invariant. */
    twostate lemma RemovedKeepsInvariant(order: Order, new slot: Slot, new k: nat, new level: PriceLevel)
      requires old(Structural()) && allNodes == old(allNodes) && allLevels == old(allLevels)
      requires old(NodeAt(order, slot, k) && |nodes[slot]| == |entries[slot]|) && level == old(order.parent)
      requires old(VolumeBut(slot, order.remaining)) && level.totalVol == old(level.totalVol)
      requires forall o | o in old(allNodes) && o !in old(nodes)[slot] :: unchanged(o)
      requires forall l | l in old(allLevels) && l != level :: unchanged(l)
      requires forall n | n in old(nodes)[slot] :: n in allNodes && n.Val() == old(n.Val())
      requires Unfiled(order, slot, k) && Deindexed(slot, |old(nodes)[slot]| == 1)
      requires level.Lists(Drop(old(nodes)[slot], k)) && order.Unlinked()
      ensures Structural() && VolumeOk()
    {
      RemovedTouchesOnly(order, slot, k, level);
      RemovedDelinks(order, slot, k, level);
      assert Removed(order, slot, k, level);
      hide *;
      RemovedStructural(order, slot, k, level);
      RemovedVolume(order, slot, k, level);
    }

    method RemoveOrder(order: Order, ghost slot: Slot, ghost k: nat)
      requires Structural() && slot in nodes && k < |nodes[slot]| && nodes[slot][k] == order
      requires VolumeBut(slot, order.remaining)
      requires |entries[slot]| == |nodes[slot]|
      modifies this, allNodes, allLevels
      ensures Structural() && VolumeOk()
      ensures nodes == SetQueue(old(nodes), slot, Drop(old(nodes)[slot], k))
      ensures entries == SetQueue(old(entries), slot, Drop(old(entries)[slot], k))
      ensures orders == old(orders) - {old(order.id)} && pool == old(pool) + {order}
      ensures |old(nodes)[slot]| > 1 ==> Levels(slot.side) == old(Levels(slot.side))
      ensures allNodes == old(allNodes) && allLevels == old(allLevels)
      ensures forall o | o in allNodes :: o.Val() == old(o.Val())
    {
      hide SlotOk, OrdersOk, PoolOk, IndexesOk, Structural, VolumeBut, VolumeOk, NodeAt, NodeOk;
      hide PriceLevel.Lists, Sorted, SetQueue;
      NodeAtIntro(order, slot, k);
      var level := order.parent;
      Delink(order, level, slot, nodes[slot], k);
      Unfile(order, slot, k);
      RemovedKeepsInvariant(order, slot, k, level);
    }

    // ---------- One fill ----------

    /** `quantity` was taken off the maker at position `k`, and `taken` off its level's volume. */
    twostate predicate Reduced(maker: Order, new slot: Slot, new k: nat, new level: PriceLevel, new quantity: int,
                               new taken: int)
      reads this, maker, level
    {
      && slot in old(entries) && k < |old(entries)[slot]|
      && entries == old(entries)[slot := old(entries)[slot][k := maker.Val()]]
      && nodes == old(nodes) && orders == old(orders) && pool == old(pool)
      && bids == old(bids) && asks == old(asks) && bidsIndex == old(bidsIndex) && asksIndex == old(asksIndex)
      && allNodes == old(allNodes) && allLevels == old(allLevels)
      && maker.Val() == Reduce(old(maker.Val()), quantity)
      && maker.next == old(maker.next) && maker.prev == old(maker.prev) && maker.parent == old(maker.parent)
      && old(allocated(level)) && level.totalVol == old(level.totalVol) - taken
      && level.head == old(level.head) && level.tail == old(level.tail)
    }

    method ReduceMaker(maker: Order, level: PriceLevel, quantity: int, ghost slot: Slot, ghost k: nat)
      requires slot in entries && k < |entries[slot]|
      requires maker in allNodes && level in allLevels
      modifies maker`remaining, maker`status, level`totalVol, this`entries
      ensures Reduced(maker, slot, k, level, quantity, quantity)
      ensures maker.status == if maker.remaining == 0 then Filled else old(maker.status)
    {
      maker.remaining := maker.remaining - quantity;
      if maker.remaining == 0 {
        maker.status := Filled;
      }
      level.totalVol := level.totalVol - quantity;
      entries := entries[slot := entries[slot][k := maker.Val()]];
    }

    twostate lemma ReducedOwnSlot(maker: Order, new slot: Slot, new k: nat, new level: PriceLevel, new quantity: int,
                                  new taken: int)
      requires old(Structural() && NodeAt(maker, slot, k)) && level == old(maker.parent)
      requires Reduced(maker, slot, k, level, quantity, taken)
      requires forall o | o in allNodes && o != maker :: unchanged(o)
      ensures slot in entries && slot in nodes && SlotOk(slot)
    {
      hide OrdersOk, PoolOk, IndexesOk;
      var q := nodes[slot];
      forall j | 0 <= j < |q| ensures NodeOk(q[j], slot, entries[slot][j]) && level.Hangs(q, j) {
        assert old(NodeOk(q[j], slot, entries[slot][j])) && old(level.Hangs(q, j)) && q[j] in q;
        assert j != k ==> q[j] != maker;
      }
    }

    twostate lemma ReducedTouchesOnly(maker: Order, new slot: Slot, new k: nat, new level: PriceLevel,
                                      new quantity: int, new taken: int)
      requires old(Structural() && NodeAt(maker, slot, k)) && level == old(maker.parent)
      requires Reduced(maker, slot, k, level, quantity, taken)
      requires forall o | o in allNodes && o != maker :: unchanged(o)
      requires forall l | l in allLevels && l != level :: unchanged(l)
      ensures OnlyTouched(slot, level)
    {
      hide PriceLevel.Lists, OrdersOk, PoolOk;
      assert old(nodes)[slot][k] in old(nodes)[slot];
    }

    twostate lemma ReducedMaps(maker: Order, new slot: Slot, new k: nat, new level: PriceLevel, new quantity: int,
                               new taken: int)
      requires old(OrdersOk() && PoolOk() && IndexesOk() && NodeAt(maker, slot, k)) && level == old(maker.parent)
      requires Reduced(maker, slot, k, level, quantity, taken)
      requires forall o | o in allNodes && o != maker :: unchanged(o)
      ensures OrdersOk() && PoolOk() && IndexesOk()
    {
      hide SlotOk;
      assert maker.side == old(maker.side) && maker.price == old(maker.price);
      assert forall id | id in orders ::
        old(orders[id].id) == orders[id].id && old(orders[id].side) == orders[id].side
            && old(orders[id].price) == orders[id].price;
      assert forall s :: s in entries <==> s in old(entries);
    }

    twostate lemma ReducedKeepsInvariant(maker: Order, new slot: Slot, new k: nat, new level: PriceLevel,
                                         new quantity: int, new taken: int)
      requires old(Structural() && VolumeOk() && NodeAt(maker, slot, k)) && level == old(maker.parent)
      requires Reduced(maker, slot, k, level, quantity, taken)
      requires forall o | o in allNodes && o != maker :: unchanged(o)
      requires forall l | l in allLevels && l != level :: unchanged(l)
      ensures Structural() && VolumeBut(slot, taken - quantity)
    {
      ReducedOwnSlot(maker, slot, k, level, quantity, taken);
      ReducedTouchesOnly(maker, slot, k, level, quantity, taken);
      ReducedMaps(maker, slot, k, level, quantity, taken);
      hide SlotOk, OrdersOk, PoolOk, IndexesOk, NodeOk;
      assert Structural() by {
        forall s | s in nodes ensures s in entries && SlotOk(s) {
          if s != slot {
            OthersKept(slot, level, s);
          }
        }
      }
      hide OnlyTouched, Structural;
      ReducedVolumes(maker, slot, k, level, quantity, taken);
    }

    twostate lemma ReducedVolumes(maker: Order, new slot: Slot, new k: nat, new level: PriceLevel, new quantity: int,
                                  new taken: int)
      requires old(Structural() && VolumeOk() && NodeAt(maker, slot, k)) && level == old(maker.parent)
      requires Structural() && Reduced(maker, slot, k, level, quantity, taken) && OnlyTouched(slot, level)
      ensures VolumeBut(slot, taken - quantity)
    {
      hide OnlyTouched, Reduced, NodeAt, SlotOk, OrdersOk, PoolOk, VolumeOk;
      forall s | s in nodes
        ensures SlotOk(s) && Levels(s.side)[s.price].totalVol
           == Sum(Volume, entries[s]) - if s == slot then taken - quantity else 0
      {
        ReducedVolumeAt(maker, slot, k, level, quantity, taken, s);
      }
    }

    twostate lemma ReducedVolumeAt(maker: Order, new slot: Slot, new k: nat, new level: PriceLevel, new quantity: int,
                                   new taken: int, new s: Slot)
      requires old(Structural() && VolumeOk() && NodeAt(maker, slot, k)) && level == old(maker.parent)
      requires Structural() && Reduced(maker, slot, k, level, quantity, taken) && OnlyTouched(slot, level) && s in nodes
      ensures SlotOk(s) && Levels(s.side)[s.price].totalVol
           == Sum(Volume, entries[s]) - if s == slot then taken - quantity else 0
    {
      if s != slot {
        hide Reduced, NodeAt, OrdersOk, PoolOk;
        OthersKept(slot, level, s);
        assert old(SlotOk(s));
      } else {
        hide OnlyTouched, OrdersOk, PoolOk, PriceLevel.Lists;
        assert old(NodeOk(nodes[slot][k], slot, entries[slot][k]));
        SumUpdate(Volume, old(entries)[slot], k, maker.Val());
      }
    }

    lemma VolumeButNothing(slot: Slot)
      requires Structural() && VolumeBut(slot, 0)
      ensures VolumeOk()
    {
      hide OrdersOk, PoolOk, IndexesOk, NodeOk, PriceLevel.Lists;
    }

    twostate lemma ReducedMeans(maker: Order, new slot: Slot, new k: nat, new level: PriceLevel, new quantity: int,
                                new taken: int)
      requires Reduced(maker, slot, k, level, quantity, taken)
      requires old(NodeAt(maker, slot, k))
      ensures slot in entries && slot in nodes && |entries[slot]| == |old(entries)[slot]|
      ensures nodes == old(nodes) && orders == old(orders) && allNodes == old(allNodes) && allLevels == old(allLevels)
      ensures maker.remaining == old(maker.remaining) - quantity
      ensures entries == old(entries)[slot := old(entries)[slot][k := Reduce(old(maker.Val()), quantity)]]
      ensures Drop(entries[slot], k) == Drop(old(entries)[slot], k)
      ensures forall q :: SetQueue(entries, slot, q) == SetQueue(old(entries), slot, q)
      ensures Levels(slot.side) == old(Levels(slot.side))
    {}

    /** Fills the maker at position `k`; a maker with nothing left is removed from the book. */
    method FillMaker(maker: Order, level: PriceLevel, quantity: int, ghost slot: Slot, ghost k: nat)
      requires Structural() && VolumeOk() && NodeAt(maker, slot, k) && slot in nodes && slot in entries
      requires k < |entries[slot]| == |nodes[slot]| && nodes[slot][k] == maker && maker in allNodes
      requires level == maker.parent && level in allLevels
      modifies this, allNodes, allLevels
      ensures Structural() && VolumeOk()
      ensures allNodes == old(allNodes) && allLevels == old(allLevels)
      ensures forall id | id in orders :: id in old(orders)
      ensures |old(nodes)[slot]| > 1 ==> Levels(slot.side) == old(Levels(slot.side))
      ensures old(maker.remaining) == quantity ==>
          && nodes == SetQueue(old(nodes), slot, Drop(old(nodes)[slot], k))
          && entries == SetQueue(old(entries), slot, Drop(old(entries)[slot], k))
      ensures old(maker.remaining) != quantity ==>
          && nodes == old(nodes)
          && entries == old(entries)[slot := old(entries)[slot][k := Reduce(old(maker.Val()), quantity)]]
    {
      hide *;
      ReduceMaker(maker, level, quantity, slot, k);
      ReducedKeepsInvariant(maker, slot, k, level, quantity, quantity);
      ReducedMeans(maker, slot, k, level, quantity, quantity);
      VolumeButNothing(slot);
      if maker.remaining == 0 {
        RemoveOrder(maker, slot, k);
      }
    }

    // ---------- matchInternal ----------

    /** What the node at a position of a slot knows of itself and of the next one. */
    lemma NodeFacts(slot: Slot, k: nat)
      requires Structural() && slot in nodes && k < |nodes[slot]|
      ensures slot in entries && |entries[slot]| == |nodes[slot]|
      ensures var n := nodes[slot][k];
              && NodeAt(n, slot, k) && n in allNodes && n.Val() == entries[slot][k]
              && n.next == (if k + 1 < |nodes[slot]| then nodes[slot][k + 1] else null)
      ensures slot.price in Levels(slot.side)
      ensures var level := Levels(slot.side)[slot.price];
              level in allLevels && nodes[slot][k].parent == level && level.head == nodes[slot][0]
    {
      NodeAtIntro(nodes[slot][k], slot, k);
      Parents(slot);
      assert Levels(slot.side)[slot.price].Hangs(nodes[slot], k);
    }

    /** One trade of the taker with the maker at the head of what is still to be swept. */
    method TradeWith(taker: Order, maker: Order, level: PriceLevel, price: int,
                     ghost slot: Slot, ghost done: seq<Entry>, ghost todo: seq<Entry>) returns (trade: Trade)
      requires Structural() && VolumeOk() && taker !in allNodes && taker.remaining > 0
      requires slot in nodes && slot in entries && todo != [] && entries[slot] == done + todo && todo[0].remaining > 0
      requires |nodes[slot]| == |done| + |todo| && maker == nodes[slot][|done|]
      requires slot.price in Levels(slot.side) && Levels(slot.side)[slot.price] == level
      modifies this, allNodes, allLevels, taker`remaining, idGen
      ensures Structural() && VolumeOk() && allNodes == old(allNodes) && allLevels == old(allLevels)
      ensures trade == Fill(old(taker.Val()), todo[0], price, old(idGen.next)) && idGen.next == old(idGen.next) + 1
      ensures taker.Val() == Reduce(old(taker.Val()), trade.quantity)
      ensures var done' := done + AfterFill(todo[0], trade.quantity);
              && entries == SetQueue(old(entries), slot, done' + todo[1..])
              && (|todo| > 1 ==>
                    && slot in nodes && |nodes[slot]| == |done'| + |todo| - 1
                    && nodes[slot][|done'|] == old(nodes)[slot][|done| + 1]
                    && Levels(slot.side) == old(Levels(slot.side)))
      ensures forall id | id in orders :: id in old(orders)
    {
      hide SlotOk, OrdersOk, PoolOk, IndexesOk, Structural, VolumeOk, NodeAt, NodeOk, PriceLevel.Lists, Drop;
      ghost var k, q := |done|, nodes[slot];
      NodeFacts(slot, k);
      DropMiddle(done, todo, Reduce(todo[0], Min(taker.remaining, todo[0].remaining)));
      DropAt(q, k);
      assert done + [] == done;
      var quantity := Min(taker.remaining, maker.remaining);
      taker.remaining := taker.remaining - quantity;
      var id := idGen.Next();
      trade := Trade(id, price, quantity, taker.id, maker.id, taker.user, maker.user);
      FillMaker(maker, level, quantity, slot, k);
    }

    /** The inner loop of the matcher: trades with the orders of one level, oldest first. */
    method SweepLevel(taker: Order, price: int, ghost slot: Slot) returns (trades: seq<Trade>)
      requires Structural() && VolumeOk() && taker !in allNodes && taker.remaining >= 0
      requires slot == Slot(taker.side.Opposite(), price) && slot in nodes
      requires slot in entries && price in Levels(taker.side.Opposite())
      requires QueueOk(slot.side, price, entries[slot])
      modifies this, allNodes, allLevels, taker`remaining, idGen
      ensures Structural() && VolumeOk()
      ensures var whole := Sweep(old(entries)[slot], price, old(taker.Val()), old(idGen.next));
              trades == whole.trades && taker.Val() == whole.taker
                  && entries == SetQueue(old(entries), slot, whole.queue)
      ensures idGen.next == old(idGen.next) + |trades| && allNodes == old(allNodes) && allLevels == old(allLevels)
      ensures forall id | id in orders :: id in old(orders)
    {
      hide SlotOk, OrdersOk, PoolOk, IndexesOk, Structural, VolumeOk, NodeAt, NodeOk, PriceLevel.Lists, Levels;
      hide Drop, SetQueue, Queue, Sweep, SweptSoFar;
      ghost var e0 := entries;
      ghost var whole := Sweep(entries[slot], price, taker.Val(), idGen.next);
      ghost var done, todo := [], entries[slot];
      SlotFacts(slot);
      NodeFacts(slot, 0);
      assert done + todo == todo;
      SweepStarts(todo, price, taker.Val(), idGen.next);
      SetQueueSame(entries, slot);
      var level := Levels(taker.side.Opposite())[price];
      var maker := level.head;
      trades := [];
      while maker != null && taker.remaining > 0
        invariant Structural() && VolumeOk() && allNodes == old(allNodes) && allLevels == old(allLevels)
        invariant entries == SetQueue(e0, slot, done + todo)
        invariant QueueOk(slot.side, price, todo)
        invariant todo != [] ==>
            slot in nodes && slot in entries && |nodes[slot]| == |done| + |todo| && maker == nodes[slot][|done|]
        invariant todo != [] ==> slot.price in Levels(slot.side) && Levels(slot.side)[slot.price] == level
        invariant todo == [] ==> maker == null
        invariant taker.Val() == old(taker.Val()).(remaining := taker.remaining) && taker.remaining >= 0
        invariant SweptSoFar(whole, price, done, todo, trades, taker.Val(), idGen.next)
        invariant idGen.next == old(idGen.next) + |trades|
        invariant forall id | id in orders :: id in old(orders)
        decreases |todo|
      {
        ghost var k := |done|;
        NodeFacts(slot, k);
        ghost var before := done + todo;
        SetQueueAt(e0, slot, before);
        DropMiddle(done, todo, todo[0]);
        var next := maker.next;
        if taker.user == maker.user {
          SweepSkips(whole, price, done, todo, trades, taker.Val(), idGen.next);
          done, todo := done + [todo[0]], todo[1..];
          assert before == done + todo;
        } else {
          SweepFills(whole, price, done, todo, trades, taker.Val(), idGen.next);
          var trade := TradeWith(taker, maker, level, price, slot, done, todo);
          trades := trades + [trade];
          done, todo := done + AfterFill(todo[0], trade.quantity), todo[1..];
        }
        maker := next;
        SetQueueTwice(e0, slot, before, done + todo);
        SetQueueAt(e0, slot, done + todo);
      }
      SweepEnds(whole, price, done, todo, trades, taker.Val(), idGen.next);
    }

    /** One side of the book's value. */
    ghost function Side(side: Side): Ladder
      reads this
    {
      LadderOf(side, Index(side), entries)
    }

    lemma StructuralIndex(side: Side)
      requires Structural()
      ensures IndexOk(side, Index(side), entries)
    {}

    lemma ValidSide(side: Side)
      requires Structural() && EntriesOk(entries)
      ensures IndexOk(side, Index(side), entries) && LadderOk(side, Side(side)) && Value().Of(side) == Side(side)
      ensures forall p :: QueueAt(Side(side), p) == Queue(entries, Slot(side, p))
      ensures |Side(side)| == |Index(side)|
      ensures Index(side) != [] ==>
          var p := Index(side)[0];
          && Slot(side, p) in entries && Slot(side, p) in nodes && p in Levels(side)
          && Side(side)[0] == Level(p, entries[Slot(side, p)])
    {
      hide SlotOk, OrdersOk, PoolOk;
      LadderOfOk(side, Index(side), entries);
      if Index(side) != [] {
        assert Index(side)[0] in Index(side);
      }
    }

    /** The best price of the other side, if the taker's limit reaches it. */
    method BestOpposite(taker: Order) returns (best: int, ok: bool)
      ensures ok <==> Index(taker.side.Opposite()) != [] && Reaches(taker.Val(), Index(taker.side.Opposite())[0])
      ensures ok ==> best == Index(taker.side.Opposite())[0]
    {
      if taker.side == Buy {
        if |asksIndex| == 0 || taker.price < asksIndex[0] {
          return 0, false;
        }
        return asksIndex[0], true;
      }
      if |bidsIndex| == 0 || taker.price > bidsIndex[0] {
        return 0, false;
      }
      return bidsIndex[0], true;
    }

    /** Matches the taker against the other side for as long as a best level within its limit trades. */
    method MatchOrder(taker: Order) returns (trades: seq<Trade>)
      requires Valid() && taker !in allNodes && taker.remaining >= 0
      modifies this, allNodes, allLevels, taker`remaining, idGen
      ensures Valid() && allNodes == old(allNodes) && allLevels == old(allLevels)
      ensures var m := Match(old(Side(taker.side.Opposite())), old(taker.Val()), old(idGen.next));
              trades == m.trades && taker.Val() == m.taker && Side(taker.side.Opposite()) == m.ladder
      ensures taker.remaining >= 0
      ensures Side(taker.side) == old(Side(taker.side))
      ensures idGen.next == old(idGen.next) + |trades|
      ensures forall id | id in orders :: id in old(orders)
    {
      hide SlotOk, OrdersOk, PoolOk, IndexesOk, Structural, VolumeOk, NodeAt, NodeOk, PriceLevel.Lists;
      hide LadderOf, IndexOk, Sweep, Match, MatchedSoFar, Sorted;
      ghost var own, opposite := taker.side, taker.side.Opposite();
      ghost var whole := Match(Side(opposite), taker.Val(), idGen.next);
      MatchStarts(Side(opposite), taker.Val(), idGen.next);
      trades := [];
      while taker.remaining > 0
        invariant Valid() && allNodes == old(allNodes) && allLevels == old(allLevels)
        invariant taker.Val() == old(taker.Val()).(remaining := taker.remaining) && taker.remaining >= 0
        invariant MatchedSoFar(whole, Side(opposite), trades, taker.Val(), idGen.next)
        invariant Side(own) == old(Side(own))
        invariant idGen.next == old(idGen.next) + |trades|
        invariant forall id | id in orders :: id in old(orders)
        decreases taker.remaining
      {
        var best, ok := BestOpposite(taker);
        ValidSide(opposite);
        MatchUnfold(Side(opposite), taker.Val(), idGen.next);
        if !ok {
          break;
        }
        MatchSweeps(whole, opposite, Side(opposite), trades, taker.Val(), idGen.next);
        var filled := SweepStep(taker, best);
        trades := trades + filled;
        if filled == [] {
          break;
        }
      }
      ValidSide(opposite);
      MatchUnfold(Side(opposite), taker.Val(), idGen.next);
      MatchEnds(whole, Side(opposite), trades, taker.Val(), idGen.next);
    }

    /** One round of the outer loop: the first level is swept, the other side stays. */
    method SweepStep(taker: Order, best: int) returns (trades: seq<Trade>)
      requires Valid() && taker !in allNodes && taker.remaining >= 0
      requires Index(taker.side.Opposite()) != [] && best == Index(taker.side.Opposite())[0]
      requires Side(taker.side.Opposite()) != [] && Reaches(taker.Val(), best)
      modifies this, allNodes, allLevels, taker`remaining, idGen
      ensures Valid() && allNodes == old(allNodes) && allLevels == old(allLevels)
      ensures var ladder := old(Side(taker.side.Opposite()));
              var s := Sweep(ladder[0].queue, ladder[0].price, old(taker.Val()), old(idGen.next));
              trades == s.trades && taker.Val() == s.taker && Side(taker.side.Opposite()) == AfterFirst(ladder, s.queue)
      ensures Side(taker.side) == old(Side(taker.side))
      ensures idGen.next == old(idGen.next) + |trades|
      ensures forall id | id in orders :: id in old(orders)
    {
      hide SlotOk, OrdersOk, PoolOk, IndexesOk, Structural, VolumeOk, NodeAt, NodeOk, PriceLevel.Lists;
      hide LadderOf, IndexOk, Sweep, Sorted, SetQueue;
      ghost var own, opposite := taker.side, taker.side.Opposite();
      ghost var slot := Slot(opposite, best);
      ghost var index, index', m := Index(opposite), Index(own), entries;
      ValidSide(opposite);
      ValidSide(own);
      SweepFacts(opposite, entries[slot], best, taker.Val(), idGen.next);
      ghost var s := Sweep(entries[slot], best, taker.Val(), idGen.next);
      trades := SweepLevel(taker, best, slot);
      StructuralIndex(opposite);
      StructuralIndex(own);
      SetQueueOthers(m, slot, s.queue);
      SetFirst(opposite, index, m, Index(opposite), entries, s.queue);
      SameLadder(own, index', m, Index(own), entries);
    }

    // ---------- The id map and the value agree ----------

    lemma IdFacts(s: Slot, j: nat)
      requires Structural() && s in nodes && j < |nodes[s]|
      ensures s in entries && |entries[s]| == |nodes[s]|
      ensures entries[s][j].id in orders && orders[entries[s][j].id] == nodes[s][j]
    {
      NodeFacts(s, j);
      assert SlotOk(s);
      assert NodeOk(nodes[s][j], s, entries[s][j]);
    }

    /** An id names one position of one slot. */
    lemma SamePosition(s: Slot, j: nat, s': Slot, j': nat)
      requires Structural() && s in nodes && j < |nodes[s]| && s' in nodes && j' < |nodes[s']|
      requires s in entries && |entries[s]| == |nodes[s]| && s' in entries && |entries[s']| == |nodes[s']|
      requires entries[s][j].id == entries[s'][j'].id
      ensures s == s' && j == j'
    {
      hide OrdersOk, PoolOk, IndexesOk;
      IdFacts(s, j);
      IdFacts(s', j');
      assert nodes[s][j] in nodes[s] && nodes[s'][j'] in nodes[s'];
      if s != s' {
        SlotsDisjoint(s, s');
      } else {
        assert SlotOk(s);
      }
    }

    lemma SideAt(side: Side, i: nat)
      requires Structural() && i < |Index(side)|
      ensures |Side(side)| == |Index(side)|
      ensures var s := Slot(side, Index(side)[i]);
              s in nodes && s in entries && |entries[s]| == |nodes[s]| && Side(side)[i] == Level(s.price, entries[s])
    {
      assert Index(side)[i] in Index(side);
      var s := Slot(side, Index(side)[i]);
      assert s in entries;
      SlotFacts(s);
    }

    lemma SideDistinct(side: Side)
      requires Structural()
      ensures DistinctPositions(Side(side))
    {
      hide SlotOk, OrdersOk, PoolOk, LadderOf;
      var ladder := Side(side);
      SideLength(side);
      forall i, j, i', j' | 0 <= i < |ladder| && 0 <= j < |ladder[i].queue| && 0 <= i' < |ladder|
          && 0 <= j' < |ladder[i'].queue|
        && ladder[i].queue[j].id == ladder[i'].queue[j'].id
        ensures i == i' && j == j'
      {
        SideAt(side, i);
        SideAt(side, i');
        SamePosition(Slot(side, Index(side)[i]), j, Slot(side, Index(side)[i']), j');
      }
    }

    lemma SideLength(side: Side)
      ensures |Side(side)| == |Index(side)|
    {}

    /** The side of an id: where it stands, or that it stands nowhere. */
    lemma SideFinds(side: Side, id: Uuid)
      requires Structural()
      ensures id in orders && orders[id].side == side ==> Find(Side(side), id) == Some(orders[id].Val())
      ensures id !in orders || orders[id].side != side ==> Find(Side(side), id) == None
    {
      SideLength(side);
      if id in orders && orders[id].side == side {
        var o := orders[id];
        var s := Slot(side, o.price);
        assert o in Queue(nodes, s);
        var j :| 0 <= j < |nodes[s]| && nodes[s][j] == o;
        NodeFacts(s, j);
        assert s in entries && o.price in Index(side);
        var i :| 0 <= i < |Index(side)| && Index(side)[i] == o.price;
        SideAt(side, i);
        SideDistinct(side);
        hide *;
        FindAt(Side(side), i, j);
      } else {
        forall i, j | 0 <= i < |Side(side)| && 0 <= j < |Side(side)[i].queue| ensures Side(side)[i].queue[j].id != id {
          SideAt(side, i);
          var s := Slot(side, Index(side)[i]);
          IdFacts(s, j);
          NodeFacts(s, j);
        }
        FindNone(Side(side), id);
      }
    }

    /** The id map holds exactly the orders that can be found in the book's value. */
    lemma ValueFinds(id: Uuid)
      requires Structural()
      ensures Value().FindOrder(id) == if id in orders then Some(orders[id].Val()) else None
    {
      SideFinds(Buy, id);
      SideFinds(Sell, id);
    }

    // ---------- The book's interface ----------

    /** Nothing changed but that one free node was given out. */
    twostate predicate GivenOut(order: Order)
      reads this, allNodes, allLevels
    {
      && order in old(pool) && pool == old(pool) - {order} && allNodes == old(allNodes) - {order}
      && allLevels == old(allLevels)
      && nodes == old(nodes) && entries == old(entries) && orders == old(orders)
      && bids == old(bids) && asks == old(asks) && bidsIndex == old(bidsIndex) && asksIndex == old(asksIndex)
      && (forall o | o in allNodes :: unchanged(o)) && (forall l | l in allLevels :: unchanged(l))
    }

    twostate lemma GivenOutNode(order: Order, new s: Slot, new j: nat)
      requires old(Structural()) && GivenOut(order) && s in nodes && j < |nodes[s]|
      ensures nodes[s][j] in allNodes && s in entries && |entries[s]| == |nodes[s]|
      ensures s.price in Levels(s.side) && NodeOk(nodes[s][j], s, entries[s][j])
      ensures Levels(s.side)[s.price].Hangs(nodes[s], j)
    {
      hide OrdersOk, PoolOk, IndexesOk, Structural;
      OldParents(s);
      OldNode(s, j);
      OldFree(order);
      var n := nodes[s][j];
      assert n in nodes[s] && old(Levels(s.side)[s.price].Hangs(nodes[s], j));
    }

    twostate lemma OldFree(order: Order)
      requires old(Structural()) && order in old(pool)
      ensures old(order.parent) == null
    {
      hide OrdersOk, IndexesOk, SlotOk;
      assert old(order.Unlinked());
    }

    twostate lemma GivenOutSlot(order: Order, new s: Slot)
      requires old(Structural()) && GivenOut(order) && s in nodes
      ensures s in entries && SlotOk(s)
      ensures Levels(s.side)[s.price].totalVol == old(Levels(s.side)[s.price].totalVol)
    {
      hide OrdersOk, PoolOk, IndexesOk, NodeOk, PriceLevel.Hangs, Structural;
      OldParents(s);
      OldNodes(s);
      var q, level := nodes[s], Levels(s.side)[s.price];
      forall j | 0 <= j < |q| ensures q[j] in allNodes && NodeOk(q[j], s, entries[s][j]) && level.Hangs(q, j) {
        GivenOutNode(order, s, j);
      }
      assert level.Lists(q);
      SlotIntro(s);
    }

    twostate lemma GivenOutOrders(order: Order)
      requires old(Structural()) && GivenOut(order)
      ensures OrdersOk()
    {
      forall id | id in orders
        ensures orders[id] in allNodes && orders[id].id == id
        ensures orders[id] in Queue(nodes, Slot(orders[id].side, orders[id].price))
      {
        var o := orders[id];
        var s := old(Slot(o.side, o.price));
        assert old(o in allNodes && o.id == id && o in Queue(nodes, Slot(o.side, o.price)));
        OldParents(s);
        assert old(order.Unlinked());
      }
    }

    twostate lemma GivenOutPool(order: Order)
      requires old(PoolOk()) && GivenOut(order)
      ensures PoolOk()
    {
      forall o | o in pool ensures o in allNodes && o.Unlinked() {
        assert old(o in allNodes && o.Unlinked());
      }
    }

    twostate lemma GivenOutIndexes(order: Order)
      requires old(IndexesOk()) && GivenOut(order)
      ensures IndexesOk()
    {
      hide IndexOk;
    }

    twostate lemma GivenOutStructural(order: Order)
      requires old(Structural()) && GivenOut(order)
      ensures Structural()
    {
      hide OrdersOk, PoolOk, SlotOk, IndexesOk;
      GivenOutOrders(order);
      GivenOutPool(order);
      GivenOutIndexes(order);
      forall s | s in nodes ensures s in entries && SlotOk(s) {
        GivenOutSlot(order, s);
      }
    }

    twostate lemma GivenOutValid(order: Order)
      requires old(Valid()) && GivenOut(order)
      ensures Valid()
    {
      GivenOutStructural(order);
      hide OrdersOk, PoolOk, SlotOk, IndexesOk, Structural;
      forall s | s in nodes ensures s in entries && SlotOk(s)
          && Levels(s.side)[s.price].totalVol == Sum(Volume, entries[s]) {
        GivenOutSlot(order, s);
        assert old(SlotOk(s));
      }
    }

    method TakeFromPool(order: Order)
      requires Valid() && order in pool
      modifies this`pool, this`allNodes
      ensures GivenOut(order) && order.Unlinked() && order in old(allNodes)
    {
      hide SlotOk, OrdersOk, IndexesOk, VolumeOk;
      pool := pool - {order};
      allNodes := allNodes - {order};
    }

    /** Takes a node from the pool, or a new one; either way it carries no links. */
    method GetNode() returns (order: Order)
      requires Valid()
      modifies this`pool, this`allNodes
      ensures Valid() && order.Unlinked() && order !in allNodes
      ensures allNodes <= old(allNodes) && (order in old(allNodes) || fresh(order))
    {
      hide SlotOk, OrdersOk, IndexesOk, VolumeOk, Structural, Valid;
      var reuse: bool := *;
      if reuse && pool != {} {
        order :| order in pool;
        TakeFromPool(order);
        GivenOutValid(order);
      } else {
        order := new Order();
      }
    }

    /**
     Rests an order: the value gains it at the end of its level's queue, whatever its id. The
     invariant is kept exactly if the id was not in use.
     */
    method Rest(order: Order)
      requires Valid() && order !in allNodes && order.Unlinked() && order.remaining > 0
      modifies this, allNodes, allLevels, order
      ensures Valid() <==> order.id !in old(orders)
      ensures order.id in old(orders) ==> Shadowed(old(orders)[order.id])
      ensures order.Val() == old(order.Val())
      ensures Side(order.side) == Add(old(Side(order.side)), order.Val())
      ensures Side(order.side.Opposite()) == old(Side(order.side.Opposite()))
      ensures orders == old(orders)[order.id := order] && allNodes == old(allNodes) + {order}
      ensures forall l | l in allLevels :: l in old(allLevels) || fresh(l)
    {
      hide SlotOk, OrdersOk, PoolOk, IndexesOk, Structural, VolumeOk, LadderOf, IndexOk, Shadowed;
      ghost var side, other := order.side, order.side.Opposite();
      ghost var index, index', m := Index(side), Index(other), entries;
      ValidSide(side);
      ValidSide(other);
      AddOrder(order);
      SideIndex(side);
      SideIndex(other);
      AddLadder(index, m, Index(side), entries, order.Val());
      SameLadder(other, index', m, Index(other), entries);
      if order.id in old(orders) {
        ShadowedBreaks(old(orders)[order.id]);
      }
    }

    lemma SideIndex(side: Side)
      requires IndexesOk()
      ensures IndexOk(side, Index(side), entries)
    {}

    /**
     Submits a limit order: matches it against the other side, then rests what is left. The book's
     value, the trades and the status are those of the reference matcher, whatever the id; the
     invariant is kept unless the order comes to rest beside another of its own id.
     */
    method PlaceOrder(id: Uuid, user: Uuid, price: int, quantity: int, side: Side)
      returns (trades: seq<Trade>, status: Status)
      requires Valid() && quantity >= 0
      modifies this, allNodes, allLevels, idGen
      ensures var taker := Entry(id, user, price, quantity, quantity, side);
              var r := Matching.PlaceOrder(old(Value()), taker, old(idGen.next));
              && Value() == r.book && trades == r.trades && status == r.status
              && (Valid() <==> !RestsTwice(old(Value()), taker, old(idGen.next)))
      ensures quantity > 0 ==>
                && (status == Filled <==> Traded(trades) == quantity)
                && (status == Partial <==> 0 < Traded(trades) < quantity)
                && (status == Placed <==> trades == [])
      ensures id !in old(orders) ==> Valid()
      ensures idGen.next == old(idGen.next) + |trades|
      ensures forall o | o in allNodes :: o in old(allNodes) || fresh(o)
      ensures forall l | l in allLevels :: l in old(allLevels) || fresh(l)
    {
      hide Valid, LadderOf, Match, Add, Shadowed, BookValue.FindOrder, Traded, BookOk;
      PlacedStatus(Entry(id, user, price, quantity, quantity, side));
      var order := GetNode();
      order.Set(id, user, price, quantity, side);
      trades := MatchOrder(order);
      ValidFinds(id);
      if order.remaining == 0 {
        status := Filled;
      } else {
        status := if order.remaining < order.quantity then Partial else Placed;
        Rest(order);
      }
    }

    lemma ValidBook()
      requires Valid()
      ensures BookOk(Value())
    {
      hide LadderOk, LadderOf, Structural, IndexOk;
      ValidSide(Buy);
      ValidSide(Sell);
    }

    lemma PlacedStatus(taker: Entry)
      requires Valid()
      ensures var r := Matching.PlaceOrder(Value(), taker, idGen.next);
              taker.remaining == taker.quantity > 0 ==>
                && (r.status == Filled <==> Traded(r.trades) == taker.quantity)
                && (r.status == Partial <==> 0 < Traded(r.trades) < taker.quantity)
                && (r.status == Placed <==> r.trades == [])
    {
      hide *;
      ValidBook();
      if taker.remaining == taker.quantity > 0 {
        PlaceStatus(Value(), taker, idGen.next);
      }
    }

    lemma ValidFinds(id: Uuid)
      requires Valid()
      ensures Value().FindOrder(id) == None <==> id !in orders
    {
      ValueFinds(id);
    }

    /** Takes the order's remainder off its level's volume, before the order is removed. */
    method MarkCancelled(order: Order, level: PriceLevel, ghost slot: Slot, ghost k: nat)
      requires slot in entries && k < |entries[slot]| && entries[slot][k] == order.Val()
      requires order in allNodes && level in allLevels
      modifies level`totalVol, order`status
      ensures Reduced(order, slot, k, level, 0, order.remaining)
    {
      level.totalVol := level.totalVol - order.remaining;
      order.status := Cancelled;
      assert entries[slot][k := entries[slot][k]] == entries[slot];
    }

    /** Where the order with an id stands. */
    lemma Position(id: Uuid) returns (slot: Slot, k: nat)
      requires Structural() && id in orders
      ensures slot == Slot(orders[id].side, orders[id].price)
      ensures slot in nodes && slot in entries && k < |nodes[slot]| == |entries[slot]|
      ensures nodes[slot][k] == orders[id] && NodeAt(orders[id], slot, k) && entries[slot][k] == orders[id].Val()
      ensures entries[slot][k].id == id && orders[id] in allNodes
      ensures orders[id].parent != null && orders[id].parent in allLevels
      ensures forall i | 0 <= i < k :: entries[slot][i].id != id
    {
      var o := orders[id];
      slot := Slot(o.side, o.price);
      assert o in Queue(nodes, slot);
      k :| 0 <= k < |nodes[slot]| && nodes[slot][k] == o;
      NodeFacts(slot, k);
      forall i | 0 <= i < k ensures entries[slot][i].id != id {
        if entries[slot][i].id == id {
          SamePosition(slot, i, slot, k);
        }
      }
    }

    method CancelOrder(id: Uuid) returns (ok: bool)
      requires Valid()
      modifies this, allNodes, allLevels
      ensures Valid() && allNodes == old(allNodes) && allLevels == old(allLevels)
      ensures match Matching.CancelOrder(old(Value()), id)
              case None => !ok && Value() == old(Value())
              case Some((after, e)) => ok && Value() == after
      ensures ok ==> id in old(orders) && old(orders)[id].Val() == old(orders[id].Val())
    {
      hide SlotOk, OrdersOk, PoolOk, IndexesOk, Structural, VolumeOk, VolumeBut, LadderOf, IndexOk, NodeAt;
      ValueFinds(id);
      if id !in orders {
        return false;
      }
      var order := orders[id];
      ghost var slot, k := Position(id);
      ghost var side, other := order.side, order.side.Opposite();
      ghost var index, index', m := Index(side), Index(other), entries;
      ValidSide(side);
      ValidSide(other);
      TakeOut(order, slot, k);
      StructuralIndex(side);
      StructuralIndex(other);
      SetQueueOthers(m, slot, Drop(m[slot], k));
      RemoveLadder(slot, index, m, Index(side), entries, k);
      SameLadder(other, index', m, Index(other), entries);
      return true;
    }

    method TakeOut(order: Order, ghost slot: Slot, ghost k: nat)
      requires Structural() && VolumeOk() && slot in nodes && slot in entries && k < |nodes[slot]| == |entries[slot]|
      requires nodes[slot][k] == order && NodeAt(order, slot, k) && entries[slot][k] == order.Val()
      requires order in allNodes && order.parent != null && order.parent in allLevels
      modifies this, allNodes, allLevels
      ensures Structural() && VolumeOk() && allNodes == old(allNodes) && allLevels == old(allLevels)
      ensures entries == SetQueue(old(entries), slot, Drop(old(entries)[slot], k))
      ensures order.Val() == old(order.Val())
    {
      hide *;
      var level := order.parent;
      MarkCancelled(order, level, slot, k);
      ReducedKeepsInvariant(order, slot, k, level, 0, order.remaining);
      ReducedMeans(order, slot, k, level, 0, order.remaining);
      RemoveOrder(order, slot, k);
    }

    /** Puts an order with a remainder back on the book, unless its id is already there. */
    method RestoreOrder(order: Order)
      requires Valid() && order !in allNodes && order.Unlinked() && order.remaining > 0
      modifies this, allNodes, allLevels, order
      ensures Valid() && order.Val() == old(order.Val())
      ensures Value() == Matching.RestoreOrder(old(Value()), order.Val())
      ensures allNodes <= old(allNodes) + {order} && (order !in allNodes ==> order.Unlinked())
      ensures forall l | l in allLevels :: l in old(allLevels) || fresh(l)
    {
      hide SlotOk, OrdersOk, PoolOk, IndexesOk, Structural, VolumeOk, LadderOf, IndexOk, Add;
      ValueFinds(order.id);
      if order.id !in orders {
        Rest(order);
      }
    }

    method GetOrder(id: Uuid) returns (order: Order?)
      requires Valid()
      ensures Value().FindOrder(id) == if order == null then None else Some(order.Val())
      ensures order != null ==> id in orders && order == orders[id]
    {
      ValueFinds(id);
      order := if id in orders then orders[id] else null;
    }

    lemma LevelVolume(side: Side, i: nat)
      requires Valid() && i < |Index(side)|
      ensures |Side(side)| == |Index(side)| && Index(side)[i] in Levels(side)
      ensures Levels(side)[Index(side)[i]].totalVol == Sum(Volume, Side(side)[i].queue)
      ensures Side(side)[i].price == Index(side)[i]
    {
      hide OrdersOk, PoolOk, LadderOf, NodeOk, PriceLevel.Lists;
      SideAt(side, i);
      assert SlotOk(Slot(side, Index(side)[i]));
    }

    /** The volumes the snapshot of one side reads off its levels. */
    method SideDepth(side: Side) returns (depth: seq<LevelDepth>)
      requires Valid()
      ensures depth == Depth(Side(side))
    {
      hide Valid, LadderOf;
      SideLength(side);
      depth := [];
      for i := 0 to |Index(side)|
        invariant |depth| == i && forall j | 0 <= j < i :: depth[j] == Depth(Side(side))[j]
      {
        LevelVolume(side, i);
        var price := Index(side)[i];
        depth := depth + [LevelDepth(price, Levels(side)[price].totalVol)];
      }
    }

    /** Per side and best first, the prices at which orders rest, each with the sum of what is open there. */
    method TakeSnapshot() returns (snap: Snapshot)
      requires Valid()
      ensures snap == DepthOf(Value())
      ensures forall p, v ::
                LevelDepth(p, v) in snap.bids
                <==> QueueAt(Value().bids, p) != [] && v == Sum(Volume, QueueAt(Value().bids, p))
      ensures forall p, v ::
                LevelDepth(p, v) in snap.asks
                <==> QueueAt(Value().asks, p) != [] && v == Sum(Volume, QueueAt(Value().asks, p))
      ensures forall i, j | 0 <= i < j < |snap.bids| :: snap.bids[i].price > snap.bids[j].price
      ensures forall i, j | 0 <= i < j < |snap.asks| :: snap.asks[i].price < snap.asks[j].price
    {
      hide Valid, LadderOf, Depth, BookOk, Sum, QueueAt;
      var b := SideDepth(Buy);
      var a := SideDepth(Sell);
      snap := Snapshot(b, a);
      ValidBook();
      DepthShows(Value());
    }

    /** Forgets all orders; the pool keeps its free nodes. */
    method Reset()
      requires Valid()
      modifies this
      ensures Valid() && Value() == EMPTY_BOOK && pool == old(pool) && allNodes == old(allNodes)
    {
      bids, asks, bidsIndex, asksIndex, orders := map[], map[], [], [], map[];
      nodes, entries := map[], map[];
    }
  }
}
