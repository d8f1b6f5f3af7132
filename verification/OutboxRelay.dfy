/** The outbox table, and the relay that publishes its events in batches and marks them. */
module OutboxRelay {
  import opened Domain
  import opened Engine

  /** A committed event; the table is listed in order of creation. */
  datatype Row = Row(id: Uuid, event: Event, processed: bool)

  const BATCH: nat := 100

  /** The events not marked yet, oldest first. */
  function Unprocessed(rows: seq<Row>): seq<Row> {
    if rows == [] then []
    else (if rows[0].processed then [] else [rows[0]]) + Unprocessed(rows[1..])
  }

  function First(rows: seq<Row>, limit: nat): seq<Row> {
    if |rows| <= limit then rows else rows[..limit]
  }

  function Ids(rows: seq<Row>): (ids: seq<Uuid>)
    ensures |ids| == |rows|
  {
    seq(|rows|, i requires 0 <= i < |rows| => rows[i].id)
  }

  /** FetchUnprocessed: what one fetch returns. */
  function Batch(rows: seq<Row>): seq<Row> {
    First(Unprocessed(rows), BATCH)
  }

  /** MarkProcessedBatch. */
  function Mark(rows: seq<Row>, ids: seq<Uuid>): (marked: seq<Row>)
    ensures |marked| == |rows|
  {
    seq(|rows|, i requires 0 <= i < |rows| => if rows[i].id in ids then rows[i].(processed := true) else rows[i])
  }

  predicate DistinctIds(rows: seq<Row>) {
    forall i, j | 0 <= i < j < |rows| :: rows[i].id != rows[j].id
  }

  /** The events of a batch whose publication does not fail. */
  function Kept(batch: seq<Row>, fails: set<Uuid>): seq<Row> {
    if batch == [] then [] else (if batch[0].id in fails then [] else [batch[0]]) + Kept(batch[1..], fails)
  }

  /** What goes wrong in a round: either fetch, the publication of some events, the marking. */
  datatype Faults = Faults(fetch: bool, refetch: bool, publish: set<Uuid>, mark: bool)

  const NO_FAULTS := Faults(false, false, {}, false)

  /** The table, the log of the events the broker has accepted, and what the round returns. */
  datatype Result = Result(rows: seq<Row>, published: seq<Row>, count: nat, failed: bool)

  /** One round of the relay, given what goes wrong in it. */
  function Round(rows: seq<Row>, published: seq<Row>, f: Faults): Result {
    var batch := Batch(rows);
    var kept := Kept(batch, f.publish);
    if f.fetch then Result(rows, published, 0, true)
    else if batch == [] then Result(rows, published, 0, f.refetch)
    else if kept == [] then Result(rows, published, 0, false)
    else Result(if f.mark then rows else Mark(rows, Ids(kept)), published + kept, |kept|, f.mark)
  }

  /** The table and the log of publications after some rounds in which nothing goes wrong. */
  function Rounds(rows: seq<Row>, published: seq<Row>, n: nat): Result {
    if n == 0 then Result(rows, published, 0, false)
    else
      var r := Rounds(rows, published, n - 1);
      Round(r.rows, r.published, NO_FAULTS)
  }

  // ---------- Laws ----------

  lemma {:induction false} UnprocessedIn(rows: seq<Row>, row: Row)
    ensures row in Unprocessed(rows) <==> row in rows && !row.processed
  {
    if rows != [] {
      UnprocessedIn(rows[1..], row);
    }
  }

  /** The number of unmarked rows among the first `i`. */
  function OpenBefore(rows: seq<Row>, i: nat): nat
    requires i <= |rows|
  {
    if i == 0 then 0 else OpenBefore(rows, i - 1) + if rows[i - 1].processed then 0 else 1
  }

  /** Each unmarked row stands, whole, where the unmarked rows before it leave off, and nothing else is listed. */
  lemma {:induction false} UnprocessedAt(rows: seq<Row>, i: nat)
    requires i <= |rows|
    ensures |Unprocessed(rows)| == OpenBefore(rows, |rows|)
    ensures i < |rows| && !rows[i].processed ==>
              OpenBefore(rows, i) < |Unprocessed(rows)| && Unprocessed(rows)[OpenBefore(rows, i)] == rows[i]
  {
    UnprocessedSplit(rows, |rows|);
    UnprocessedSplit(rows, i);
    assert rows[..|rows|] == rows && rows[|rows|..] == [];
  }

  lemma {:induction false} UnprocessedSplit(rows: seq<Row>, i: nat)
    requires i <= |rows|
    ensures Unprocessed(rows) == Unprocessed(rows[..i]) + Unprocessed(rows[i..])
    ensures |Unprocessed(rows[..i])| == OpenBefore(rows, i)
  {
    if i == 0 {
      assert rows[0..] == rows && rows[..0] == [];
    } else {
      hide Unprocessed;
      UnprocessedSplit(rows, i - 1);
      UnprocessedStep(rows, i - 1);
      UnprocessedAppend(rows[..i - 1], rows[i - 1]);
      assert rows[..i] == rows[..i - 1] + [rows[i - 1]];
    }
  }

  lemma {:induction false} UnprocessedAppend(rows: seq<Row>, row: Row)
    ensures Unprocessed(rows + [row]) == Unprocessed(rows) + if row.processed then [] else [row]
  {
    if rows == [] {
      assert rows + [row] == [row] && [row][1..] == [];
    } else {
      assert (rows + [row])[1..] == rows[1..] + [row];
      UnprocessedAppend(rows[1..], row);
    }
  }

  lemma MarkTail(rows: seq<Row>, ids: seq<Uuid>)
    requires rows != []
    ensures Mark(rows, ids)[1..] == Mark(rows[1..], ids)
  {}

  lemma MarkForeign(rows: seq<Row>, id: Uuid, ids: seq<Uuid>)
    requires forall i | 0 <= i < |rows| :: rows[i].id != id
    ensures Mark(rows, [id] + ids) == Mark(rows, ids)
  {}

  /** Marking the oldest unprocessed events leaves the others unprocessed, in order. */
  lemma {:induction false} MarkOldest(rows: seq<Row>, k: nat)
    requires DistinctIds(rows) && k <= |Unprocessed(rows)|
    ensures Unprocessed(Mark(rows, Ids(Unprocessed(rows)[..k]))) == Unprocessed(rows)[k..]
  {
    var open := Unprocessed(rows);
    var ids := Ids(open[..k]);
    if rows == [] {
      assert Mark(rows, ids) == [];
    } else {
      var rest := rows[1..];
      MarkTail(rows, ids);
      if rows[0].processed {
        assert open == Unprocessed(rest);
        MarkOldest(rest, k);
      } else if k == 0 {
        assert ids == [];
        MarkNone(rows);
      } else {
        assert open[1..] == Unprocessed(rest) && ids == [rows[0].id] + Ids(Unprocessed(rest)[..k - 1]);
        MarkForeign(rest, rows[0].id, Ids(Unprocessed(rest)[..k - 1]));
        MarkOldest(rest, k - 1);
      }
    }
  }

  lemma MarkNone(rows: seq<Row>)
    ensures Mark(rows, []) == rows
  {}

  lemma {:induction false} KeptAll(batch: seq<Row>)
    ensures Kept(batch, {}) == batch
  {
    if batch != [] {
      KeptAll(batch[1..]);
    }
  }

  lemma KeepsIds(rows: seq<Row>, ids: seq<Uuid>)
    requires DistinctIds(rows)
    ensures DistinctIds(Mark(rows, ids))
  {}

  lemma {:induction false} KeptIn(batch: seq<Row>, fails: set<Uuid>, row: Row)
    ensures row in Kept(batch, fails) <==> row in batch && row.id !in fails
  {
    if batch != [] {
      KeptIn(batch[1..], fails, row);
    }
  }

  /**
   Whatever goes wrong, a round publishes the stored rows of the batch it fetched whose publication
   does not fail, counts them, and marks those or none.
   */
  lemma RoundPublishes(rows: seq<Row>, published: seq<Row>, f: Faults, row: Row)
    ensures var r := Round(rows, published, f);
            && |published| <= |r.published| && r.published[..|published|] == published
            && var sent := r.published[|published|..];
               && (row in sent <==> !f.fetch && row in Batch(rows) && row.id !in f.publish)
               && r.count == |sent| && r.rows == (if r.failed then rows else Mark(rows, Ids(sent)))
               && (r.failed ==> f.fetch || f.refetch || f.mark)
    ensures row in Batch(rows) ==> row in rows && !row.processed
  {
    hide Unprocessed, Kept, Mark;
    KeptIn(Batch(rows), f.publish, row);
    UnprocessedIn(rows, row);
    MarkNone(rows);
    IdsNone();
  }

  /** A round without faults publishes the oldest events, at most a batch, and marks exactly those. */
  lemma RoundDrains(rows: seq<Row>, published: seq<Row>)
    requires DistinctIds(rows)
    ensures var r := Round(rows, published, NO_FAULTS);
            var k := if |Unprocessed(rows)| <= 100 then |Unprocessed(rows)| else 100;
            && r.published == published + Unprocessed(rows)[..k] && Unprocessed(r.rows) == Unprocessed(rows)[k..]
            && r.count == k && !r.failed && DistinctIds(r.rows)
  {
    var open := Unprocessed(rows);
    var k := if |open| <= BATCH then |open| else BATCH;
    assert Batch(rows) == open[..k];
    KeptAll(open[..k]);
    MarkOldest(rows, k);
    KeepsIds(rows, Ids(open[..k]));
    hide Unprocessed, Mark, DistinctIds, Kept, Ids;
    if open == [] {
      assert published + open[..k] == published;
    }
  }

  /**
   Without faults and arrivals, n rounds publish the first 100n unprocessed events, each once and in
   order, and leave the others: all are out after ceil(count / 100) rounds and not before.
   */
  lemma {:induction false} Drains(rows: seq<Row>, published: seq<Row>, n: nat)
    requires DistinctIds(rows)
    ensures var r, open := Rounds(rows, published, n), Unprocessed(rows);
            var k := if |open| <= n * 100 then |open| else n * 100;
            && r.published == published + open[..k] && Unprocessed(r.rows) == open[k..] && DistinctIds(r.rows)
    ensures Unprocessed(Rounds(rows, published, n).rows) == [] <==> n >= (|Unprocessed(rows)| + 99) / 100
  {
    var open := Unprocessed(rows);
    hide Unprocessed, Round, DistinctIds;
    if n == 0 {
      assert published + open[..0] == published;
    } else {
      var r := Rounds(rows, published, n - 1);
      Drains(rows, published, n - 1);
      RoundDrains(r.rows, r.published);
    }
  }

  // ---------- The relay ----------

  class Outbox {
    var rows: seq<Row>

    constructor ()
      ensures rows == []
    {
      rows := [];
    }

    /** Fetches the oldest unprocessed rows, whole and in order, at most `limit` of them. */
    method FetchUnprocessed(limit: nat) returns (events: seq<Row>)
      ensures events == First(Unprocessed(rows), limit)
    {
      hide Unprocessed;
      events := [];
      assert rows[0..] == rows;
      var i := 0;
      while i < |rows| && |events| < limit
        invariant 0 <= i <= |rows| && |events| <= limit
        invariant events + Unprocessed(rows[i..]) == Unprocessed(rows)
      {
        UnprocessedStep(rows, i);
        if !rows[i].processed {
          events := events + [rows[i]];
        }
        i := i + 1;
      }
      UnprocessedNone();
      assert rows[|rows|..] == [];
      assert events == Unprocessed(rows)[..|events|];
    }

    method MarkProcessedBatch(ids: seq<Uuid>)
      modifies this
      ensures rows == Mark(old(rows), ids)
    {
      for i := 0 to |rows|
        invariant |rows| == |old(rows)|
        invariant forall j | 0 <= j < i :: rows[j] == Mark(old(rows), ids)[j]
        invariant forall j | i <= j < |rows| :: rows[j] == old(rows)[j]
      {
        if rows[i].id in ids {
          rows := rows[i := rows[i].(processed := true)];
        }
      }
    }
  }

  lemma IdsAppend(events: seq<Row>, row: Row)
    ensures Ids(events + [row]) == Ids(events) + [row.id]
  {}

  lemma IdsNone()
    ensures Ids([]) == []
  {}

  lemma UnprocessedNone()
    ensures Unprocessed([]) == []
  {}

  lemma KeptNone(fails: set<Uuid>)
    ensures Kept([], fails) == []
  {}

  lemma UnprocessedStep(rows: seq<Row>, i: nat)
    requires i < |rows|
    ensures Unprocessed(rows[i..]) == (if rows[i].processed then [] else [rows[i]]) + Unprocessed(rows[i + 1..])
  {
    assert rows[i..][0] == rows[i] && rows[i..][1..] == rows[i + 1..];
  }

  lemma KeptStep(events: seq<Row>, i: nat, fails: set<Uuid>)
    requires i < |events|
    ensures Kept(events[i..], fails)
         == (if events[i].id in fails then [] else [events[i]]) + Kept(events[i + 1..], fails)
  {
    assert events[i..][0] == events[i] && events[i..][1..] == events[i + 1..];
  }

  class Relay {
    const outbox: Outbox
    var published: seq<Row>  // the events the broker has accepted, in order
    var notify: bool         // the one-slot channel: full or empty

    constructor (outbox: Outbox)
      ensures this.outbox == outbox && published == [] && !notify
    {
      this.outbox, published, notify := outbox, [], false;
    }

    /** Fills the slot; a full slot stays full, and the caller never waits. */
    method Notify()
      modifies this`notify
      ensures notify
    {
      notify := true;
    }

    /** Publishes one event, unless the broker fails. */
    method Publish(event: Row, fails: set<Uuid>) returns (ok: bool)
      modifies this`published
      ensures ok == (event.id !in fails)
      ensures published == old(published) + if ok then [event] else []
    {
      ok := event.id !in fails;
      if ok {
        published := published + [event];
      }
    }

    /** Fetches a batch, looking twice before it gives up; publishes it; marks what was published. */
    method Process(f: Faults) returns (count: nat, failed: bool)
      modifies this`published, outbox
      ensures Result(outbox.rows, published, count, failed) == Round(old(outbox.rows), old(published), f)
    {
      hide Unprocessed, Mark;
      for retry := 0 to 2
        invariant outbox.rows == old(outbox.rows) && published == old(published)
        invariant retry > 0 ==> !f.fetch && Batch(outbox.rows) == []
        invariant retry > 1 ==> !f.refetch
      {
        if if retry == 0 then f.fetch else f.refetch {
          return 0, true;
        }
        var events := outbox.FetchUnprocessed(BATCH);
        if |events| > 0 {
          var processedIds := PublishAll(events, f.publish);
          if |processedIds| > 0 {
            if f.mark {
              return |processedIds|, true;
            }
            outbox.MarkProcessedBatch(processedIds);
          }
          return |processedIds|, false;
        }
      }
      return 0, false;
    }

    method PublishAll(events: seq<Row>, fails: set<Uuid>) returns (processedIds: seq<Uuid>)
      modifies this`published
      ensures processedIds == Ids(Kept(events, fails))
      ensures published == old(published) + Kept(events, fails)
    {
      hide Ids, Kept;
      ghost var kept: seq<Row> := [];
      processedIds := [];
      IdsNone();
      KeptNone(fails);
      assert events[0..] == events && events[|events|..] == [];
      for i := 0 to |events|
        invariant kept + Kept(events[i..], fails) == Kept(events, fails)
        invariant published == old(published) + kept && processedIds == Ids(kept)
      {
        KeptStep(events, i, fails);
        var ok := Publish(events[i], fails);
        if ok {
          IdsAppend(kept, events[i]);
          processedIds, kept := processedIds + [events[i].id], kept + [events[i]];
        }
      }
      assert kept + [] == kept;
    }

    /**
     Rounds until the relay parks, when nothing goes wrong and nothing arrives: every unprocessed
     event is published once, in order, and marked, in ceil(count / 100) non-empty rounds.
     */
    method RunUntilParked() returns (rounds: nat)
      requires DistinctIds(outbox.rows)
      modifies this`published, outbox
      ensures published == old(published) + Unprocessed(old(outbox.rows)) && Unprocessed(outbox.rows) == []
      ensures rounds == (|Unprocessed(old(outbox.rows))| + 99) / 100
    {
      hide Unprocessed, Round, DistinctIds;
      ghost var open := Unprocessed(outbox.rows);
      ghost var sent := 0;
      rounds := 0;
      while true
        invariant DistinctIds(outbox.rows) && sent <= |open| && (sent == rounds * BATCH || sent == |open|)
        invariant rounds == (sent + BATCH - 1) / BATCH
        invariant Unprocessed(outbox.rows) == open[sent..] && published == old(published) + open[..sent]
        decreases |open| - sent
      {
        RoundDrains(outbox.rows, published);
        var count, failed := Process(NO_FAULTS);
        assert open[sent..][..count] == open[sent..sent + count] && open[sent..][count..] == open[sent + count..];
        assert open[..sent] + open[sent..sent + count] == open[..sent + count];
        sent := sent + count;
        if failed || count == 0 {
          break;
        }
        rounds := rounds + 1;
      }
      assert open[..|open|] == open;
    }
  }
}
