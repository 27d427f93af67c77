/** InteractionBuffer of omniai/memory/buffer.py over an abstract table: rows keyed by id and
    kept in the order queries return them, one watermark cell, and the threshold counters. */
module InteractionBuffer {
  import opened Options
  import opened TrainingPairs

  predicate InOrder(a: Row, b: Row) {
    a.created < b.created || (a.created == b.created && a.id < b.id)
  }

  /** ORDER BY created_at, id with id a primary key. */
  ghost predicate IsTable(rows: seq<Row>) {
    && (forall i, j :: 0 <= i < j < |rows| ==> InOrder(rows[i], rows[j]))
    && (forall i, j :: 0 <= i < j < |rows| ==> rows[i].id != rows[j].id)
  }

  function DeleteId(rows: seq<Row>, id: int): seq<Row> {
    if rows == [] then []
    else if rows[0].id == id then DeleteId(rows[1..], id)
    else [rows[0]] + DeleteId(rows[1..], id)
  }

  function Insert(rows: seq<Row>, row: Row): seq<Row> {
    if rows == [] || InOrder(row, rows[0]) then [row] + rows
    else [rows[0]] + Insert(rows[1..], row)
  }

  /** session.merge: a row with the same id is replaced. */
  function Merge(rows: seq<Row>, row: Row): seq<Row> {
    Insert(DeleteId(rows, row.id), row)
  }

  predicate After(since: Option<int>, created: int) {
    since.Some? ==> created > since.value
  }

  function Fetch(rows: seq<Row>, since: Option<int>): seq<Row> {
    if rows == [] then []
    else if After(since, rows[0].created) then [rows[0]] + Fetch(rows[1..], since)
    else Fetch(rows[1..], since)
  }

  lemma {:induction false} DeleteFacts(rows: seq<Row>, id: int)
    requires IsTable(rows)
    ensures IsTable(DeleteId(rows, id))
    ensures forall r :: r in DeleteId(rows, id) <==> r in rows && r.id != id
  {
    if rows != [] {
      var rest := DeleteId(rows[1..], id);
      DeleteFacts(rows[1..], id);
      forall r | r in rest ensures InOrder(rows[0], r) && r.id != rows[0].id {
      }
    }
  }

  lemma {:induction false} InsertFacts(rows: seq<Row>, row: Row)
    requires IsTable(rows) && forall r :: r in rows ==> r.id != row.id
    ensures IsTable(Insert(rows, row))
    ensures forall r :: r in Insert(rows, row) <==> r in rows || r == row
  {
    if rows == [] {
    } else if InOrder(row, rows[0]) {
      assert forall i :: 0 <= i < |rows| ==> InOrder(row, rows[i]);
      assert forall r :: r in [row] + rows <==> r in rows || r == row;
    } else {
      var rest := Insert(rows[1..], row);
      InsertFacts(rows[1..], row);
      assert InOrder(rows[0], row);
      forall r | r in rest ensures InOrder(rows[0], r) && r.id != rows[0].id {
      }
      assert forall r :: r in rows <==> r == rows[0] || r in rows[1..];
    }
  }

  /** Logging replaces the row of that id, if any, and keeps all others. */
  lemma MergeFacts(rows: seq<Row>, row: Row)
    requires IsTable(rows)
    ensures IsTable(Merge(rows, row))
    ensures forall r :: r in Merge(rows, row) <==> r == row || (r in rows && r.id != row.id)
  {
    DeleteFacts(rows, row.id);
    InsertFacts(DeleteId(rows, row.id), row);
  }

  /** A fetch returns exactly the rows after the given moment, each once, oldest first. */
  lemma {:induction false} FetchFacts(rows: seq<Row>, since: Option<int>)
    requires IsTable(rows)
    ensures IsTable(Fetch(rows, since))
    ensures forall r :: r in Fetch(rows, since) <==> r in rows && After(since, r.created)
  {
    if rows != [] {
      var rest := Fetch(rows[1..], since);
      FetchFacts(rows[1..], since);
      forall r | r in rest ensures InOrder(rows[0], r) && r.id != rows[0].id {
      }
      assert forall r :: r in rows <==> r == rows[0] || r in rows[1..];
    }
  }

  /** The rows of a fetch: after a moment, of one session if one is named, at most `limit`. */
  function Query(rows: seq<Row>, session: Option<string>, limit: Option<nat>, since: Option<int>): seq<Row> {
    var found := Fetch(rows, since);
    var ofSession := if session.Some? then OfSession(found, session.value) else found;
    if limit.Some? && limit.value < |ofSession| then ofSession[..limit.value] else ofSession
  }

  lemma {:induction false} OfSessionFacts(rows: seq<Row>, session: string)
    requires IsTable(rows)
    ensures IsTable(OfSession(rows, session))
    ensures forall r :: r in OfSession(rows, session) <==> r in rows && r.session == session
    decreases |rows|
  {
    if rows != [] {
      var k := |rows| - 1;
      var before := OfSession(rows[..k], session);
      TableInit(rows);
      OfSessionFacts(rows[..k], session);
      TableSnoc(before, rows[k]);
    }
  }

  lemma TableInit(rows: seq<Row>)
    requires IsTable(rows) && rows != []
    ensures var k := |rows| - 1;
            && IsTable(rows[..k])
            && (forall r :: r in rows[..k] ==> InOrder(r, rows[k]) && r.id != rows[k].id)
            && (forall r :: r in rows <==> r in rows[..k] || r == rows[k])
  {
  }

  lemma TableSnoc(before: seq<Row>, row: Row)
    requires IsTable(before) && forall r :: r in before ==> InOrder(r, row) && r.id != row.id
    ensures IsTable(before + [row])
    ensures forall r :: r in before + [row] <==> r in before || r == row
  {
  }

  /** A fetch returns, oldest first, the rows after the given moment that belong to the given
      session, each once; a limit keeps the first of them. */
  lemma QueryFacts(rows: seq<Row>, session: Option<string>, limit: Option<nat>, since: Option<int>)
    requires IsTable(rows)
    ensures var all, found := Query(rows, session, None, since), Query(rows, session, limit, since);
            && IsTable(all)
            && (forall r :: r in all <==>
                  r in rows && After(since, r.created) && (session.Some? ==> r.session == session.value))
            && found <= all
            && |found| == if limit.Some? && limit.value < |all| then limit.value else |all|
  {
    FetchFacts(rows, since);
    if session.Some? {
      OfSessionFacts(Fetch(rows, since), session.value);
    }
  }

  lemma FirstIsIn(rows: seq<Row>)
    requires rows != []
    ensures exists r :: r in rows
  {
    assert rows[0] in rows;
  }

  /** The rows of a table determine their order. */
  lemma {:induction false} SameRowsSameTable(a: seq<Row>, b: seq<Row>)
    requires IsTable(a) && IsTable(b) && forall r :: r in a <==> r in b
    ensures a == b
  {
    if a == [] {
      if b != [] {
        FirstIsIn(b);
      }
    } else {
      assert a[0] in b && b[0] in a;
      assert a[0] == b[0];
      assert forall r :: r in a <==> r == a[0] || r in a[1..];
      assert forall r :: r in b <==> r == b[0] || r in b[1..];
      assert a[0] !in a[1..] && b[0] !in b[1..];
      SameRowsSameTable(a[1..], b[1..]);
    }
  }

  /** Two messages leave the same table whichever is logged first, unless they share an id. */
  lemma LogsCommute(rows: seq<Row>, x: Row, y: Row)
    requires IsTable(rows) && x.id != y.id
    ensures Merge(Merge(rows, x), y) == Merge(Merge(rows, y), x)
  {
    MergeFacts(rows, x);
    MergeFacts(rows, y);
    MergeFacts(Merge(rows, x), y);
    MergeFacts(Merge(rows, y), x);
    SameRowsSameTable(Merge(Merge(rows, x), y), Merge(Merge(rows, y), x));
  }

  // ---- the threshold ----

  /** `_approx_count` and `_threshold_fired_at`; the latter is None until the count is seeded. */
  datatype Counters = Counters(approx: int, firedAt: Option<int>)

  function Seeded(c: Counters, stored: nat): Counters {
    if c.firedAt.None? then Counters(stored, Some(stored)) else c
  }

  /** One logged message; `threshold` is None when no threshold or no callback is set. */
  function Counted(c: Counters, threshold: Option<int>): (Counters, bool)
    requires c.firedAt.Some?
  {
    var next := c.(approx := c.approx + 1);
    if threshold.Some? && next.approx - next.firedAt.value >= threshold.value
    then (next.(firedAt := Some(next.approx)), true)
    else (next, false)
  }

  /** Counters and number of callbacks after n messages. */
  function CountedRun(c: Counters, threshold: Option<int>, n: nat): (r: (Counters, nat))
    requires c.firedAt.Some?
    ensures r.0.firedAt.Some?
  {
    if n == 0 then (c, 0)
    else
      var (before, fired) := CountedRun(c, threshold, n - 1);
      var (after, now) := Counted(before, threshold);
      (after, if now then fired + 1 else fired)
  }

  lemma {:induction false} CountedRunInv(c: Counters, threshold: int, n: nat)
    requires c.firedAt == Some(c.approx) && threshold >= 1
    ensures var (after, fired) := CountedRun(c, Some(threshold), n);
            && after.approx == c.approx + n
            && fired * threshold + (after.approx - after.firedAt.value) == n
            && 0 <= after.approx - after.firedAt.value < threshold
  {
    if n > 0 {
      CountedRunInv(c, threshold, n - 1);
      var fired := CountedRun(c, Some(threshold), n - 1).1;
      assert (fired + 1) * threshold == fired * threshold + threshold;
    }
  }

  /** From a seeded buffer the callback runs once per full `threshold` messages; a threshold of
      at most 1 fires on every message, none never fires. */
  lemma CallbackCount(c: Counters, threshold: Option<int>, n: nat)
    requires c.firedAt == Some(c.approx)
    ensures CountedRun(c, threshold, n).1
         == if threshold.None? then 0 else if threshold.value <= 1 then n else n / threshold.value
  {
    if threshold.Some? && threshold.value > 1 {
      CountedRunInv(c, threshold.value, n);
      var (after, fired) := CountedRun(c, threshold, n);
      QuotientIs(n, threshold.value, fired, after.approx - after.firedAt.value);
    } else {
      AllOrNothing(c, threshold, n);
    }
  }

  /** Counters and number of callbacks after n messages, each of which first makes the buffer ready;
      `stored(i)` is the size of the table when message i arrives. */
  function LoggedRun(c: Counters, stored: nat -> nat, threshold: Option<int>, n: nat): (Counters, nat) {
    if n == 0 then (c, 0)
    else
      var (before, fired) := LoggedRun(c, stored, threshold, n - 1);
      var (after, now) := Counted(Seeded(before, stored(n - 1)), threshold);
      (after, if now then fired + 1 else fired)
  }

  /** The buffer is seeded once, by its first message. */
  lemma {:induction false} SeededOnce(stored: nat -> nat, threshold: Option<int>, n: nat)
    requires n > 0
    ensures LoggedRun(Counters(0, None), stored, threshold, n)
         == CountedRun(Seeded(Counters(0, None), stored(0)), threshold, n)
  {
    if n > 1 {
      SeededOnce(stored, threshold, n - 1);
    } else {
      assert CountedRun(Seeded(Counters(0, None), stored(0)), threshold, 0) == (Counters(stored(0), Some(stored(0))), 0);
    }
  }

  /** A buffer opened over a table counts on from the rows it finds, which never fire, and not from
      those it finds later: n messages fire the callback as often as in an empty table. */
  lemma OpenedBufferCounts(stored: nat -> nat, threshold: Option<int>, n: nat)
    requires n > 0
    ensures var (after, fired) := LoggedRun(Counters(0, None), stored, threshold, n);
            && after.approx == stored(0) + n
            && fired == if threshold.None? then 0 else if threshold.value <= 1 then n else n / threshold.value
  {
    var seeded := Seeded(Counters(0, None), stored(0));
    SeededOnce(stored, threshold, n);
    CallbackCount(seeded, threshold, n);
    CountGrows(seeded, threshold, n);
  }

  lemma {:induction false} CountGrows(c: Counters, threshold: Option<int>, n: nat)
    requires c.firedAt.Some?
    ensures CountedRun(c, threshold, n).0.approx == c.approx + n
  {
    if n > 0 {
      CountGrows(c, threshold, n - 1);
    }
  }

  lemma {:induction false} AllOrNothing(c: Counters, threshold: Option<int>, n: nat)
    requires c.firedAt == Some(c.approx)
    requires threshold.Some? ==> threshold.value <= 1
    ensures CountedRun(c, threshold, n).1 == if threshold.None? then 0 else n
    ensures threshold.Some? ==> var after := CountedRun(c, threshold, n).0; after.firedAt == Some(after.approx)
  {
    if n > 0 {
      AllOrNothing(c, threshold, n - 1);
    }
  }

  lemma QuotientIs(n: nat, d: int, q: nat, r: int)
    requires d > 0 && q * d + r == n && 0 <= r < d
    ensures n / d == q
  {
    var k, m := n / d, n % d;
    assert k * d + m == n;
    assert (q - k) * d == m - r;
    SmallMultiple(q - k, d);
  }

  lemma SmallMultiple(x: int, d: int)
    requires d > 0 && -d < x * d < d
    ensures x == 0
  {
    assert x >= 1 ==> x * d >= d;
    assert x <= -1 ==> x * d <= -d;
  }

  class Buffer {
    const threshold: Option<int>
    var rows: seq<Row>
    var watermark: Option<int>
    var counters: Counters

    constructor (threshold: Option<int>, rows: seq<Row>, watermark: Option<int>)
      ensures this.threshold == threshold && this.rows == rows && this.watermark == watermark
      ensures counters == Counters(0, None)
    {
      this.threshold := threshold;
      this.rows := rows;
      this.watermark := watermark;
      counters := Counters(0, None);
    }

    method EnsureReady()
      modifies this`counters
      ensures counters == Seeded(old(counters), |rows|)
    {
      if counters.firedAt.None? {
        counters := Counters(|rows|, Some(|rows|));
      }
    }

    /** `fired` tells that on_threshold is called. */
    method Log(row: Row) returns (fired: bool)
      requires IsTable(rows)
      modifies this
      ensures rows == Merge(old(rows), row) && IsTable(rows)
      ensures (counters, fired) == Counted(Seeded(old(counters), |old(rows)|), threshold)
      ensures watermark == old(watermark)
    {
      EnsureReady();
      MergeFacts(rows, row);
      rows := Merge(rows, row);
      counters := counters.(approx := counters.approx + 1);
      if threshold.None? {
        return false;
      }
      if counters.approx - counters.firedAt.value >= threshold.value {
        counters := counters.(firedAt := Some(counters.approx));
        return true;
      }
      return false;
    }

    method FetchRows(session: Option<string>, limit: Option<nat>, since: Option<int>) returns (found: seq<Row>)
      modifies this`counters
      ensures found == Query(rows, session, limit, since)
      ensures counters == Seeded(old(counters), |rows|)
    {
      EnsureReady();
      found := Fetch(rows, since);
      if session.Some? {
        found := OfSession(found, session.value);
      }
      if limit.Some? && limit.value < |found| {
        found := found[..limit.value];
      }
    }

    method SetWatermark(timestamp: int)
      modifies this`counters, this`watermark
      ensures watermark == Some(timestamp)
      ensures counters == Seeded(old(counters), |rows|)
    {
      EnsureReady();
      watermark := Some(timestamp);
    }
  }
}
