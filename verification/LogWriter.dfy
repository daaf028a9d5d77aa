/** The asynchronous, batching writer behind the durable query log. */
module LogWriter {
  import opened Common

  const WRITE_BUFFER: nat := 2048
  const FLUSH_BATCH: nat := 200

  datatype Entry = Entry(ts: int, body: string)

  /** A stored row; ids only ever grow. */
  datatype Row = Row(id: nat, e: Entry)

  /** Where the writer goroutine is. */
  datatype Phase = Running | Draining | Closed

  /** The writer at one moment. handed records every batch given to insertBatch and whether it was
      committed; accepted and recorded are the entries taken in and the number offered;
      atCancel and atDrain are how many had been accepted when the writer was told to stop and when
      it began to drain. */
  datatype State = State(channel: seq<Entry>, batch: seq<Entry>, handed: seq<(seq<Entry>, bool)>,
                         accepted: seq<Entry>, recorded: nat, dropped: nat,
                         cancelled: bool, atCancel: nat, atDrain: nat, phase: Phase)

  const INITIAL := State([], [], [], [], 0, 0, false, 0, 0, Running)

  /** Record may be called by anyone at any time; Receive, Tick and StartDrain are cases of the
      run loop's select, and drain takes entries one at a time. */
  datatype Step =
    | Record(e: Entry)
    | Cancel
    | Receive(committed: bool)
    | Tick(committed: bool)
    | StartDrain
    | DrainOne
    | Finish(committed: bool)

  function Flushed(s: State, committed: bool): State {
    if s.batch == [] then s else s.(handed := s.handed + [(s.batch, committed)], batch := [])
  }

  predicate Enabled(s: State, a: Step) {
    match a
    case Record(_) => true
    case Cancel => !s.cancelled
    case Receive(_) => s.phase.Running? && s.channel != []
    case Tick(_) => s.phase.Running?
    case StartDrain => s.phase.Running? && s.cancelled
    case DrainOne => s.phase.Draining? && s.channel != []
    case Finish(_) => s.phase.Draining? && s.channel == []
  }

  function Take(s: State): State
    requires s.channel != []
  {
    s.(channel := s.channel[1..], batch := s.batch + [s.channel[0]])
  }

  function Next(s: State, a: Step): State
    requires Enabled(s, a)
  {
    match a
    case Record(e) =>
      if |s.channel| < WRITE_BUFFER
      then s.(channel := s.channel + [e], accepted := s.accepted + [e], recorded := s.recorded + 1)
      else s.(dropped := s.dropped + 1, recorded := s.recorded + 1)
    case Cancel => s.(cancelled := true, atCancel := |s.accepted|)
    case Receive(committed) =>
      var t := Take(s);
      if |t.batch| >= FLUSH_BATCH then Flushed(t, committed) else t
    case Tick(committed) => Flushed(s, committed)
    case StartDrain => s.(phase := Draining, atDrain := |s.accepted|)
    case DrainOne => Take(s)
    case Finish(committed) => Flushed(s, committed).(phase := Closed)
  }

  function Run(steps: seq<Step>): State {
    if steps == [] then INITIAL
    else
      var s := Run(steps[..|steps| - 1]);
      if Enabled(s, steps[|steps| - 1]) then Next(s, steps[|steps| - 1]) else s
  }

  /** All entries handed over, in order. */
  function Flat(handed: seq<(seq<Entry>, bool)>): seq<Entry> {
    if handed == [] then [] else Flat(handed[..|handed| - 1]) + handed[|handed| - 1].0
  }

  ghost predicate Inv(s: State) {
    && Flat(s.handed) + s.batch + s.channel == s.accepted
    && |s.accepted| + s.dropped == s.recorded
    && |s.channel| <= WRITE_BUFFER
    && (s.phase.Running? ==> |s.batch| < FLUSH_BATCH)
    && (s.phase.Closed? ==> s.batch == [] && s.cancelled && |Flat(s.handed)| >= s.atDrain)
    && (!s.phase.Running? ==> s.atCancel <= s.atDrain <= |s.accepted|)
    && (s.phase.Draining? ==> s.cancelled)
    && (s.cancelled ==> s.atCancel <= |s.accepted|)
    && (forall i :: 0 <= i < |s.handed| ==> s.handed[i].0 != [])
    && (!s.phase.Closed? ==> forall i :: 0 <= i < |s.handed| ==> |s.handed[i].0| <= FLUSH_BATCH)
  }

  lemma FlatAppend(handed: seq<(seq<Entry>, bool)>, b: seq<Entry>, committed: bool)
    ensures Flat(handed + [(b, committed)]) == Flat(handed) + b
  {
    assert (handed + [(b, committed)])[..|handed|] == handed;
  }

  lemma FlushKeeps(s: State, committed: bool)
    ensures var t := Flushed(s, committed);
            Flat(t.handed) + t.batch + t.channel == Flat(s.handed) + s.batch + s.channel
  {
    if s.batch != [] { FlatAppend(s.handed, s.batch, committed); }
  }

  lemma TakeKeeps(s: State)
    requires s.channel != []
    ensures var t := Take(s);
            Flat(t.handed) + t.batch + t.channel == Flat(s.handed) + s.batch + s.channel
  {
    assert s.channel == [s.channel[0]] + s.channel[1..];
  }

  lemma RecordKeeps(s: State, e: Entry)
    requires Inv(s)
    ensures Inv(Next(s, Record(e)))
  {
    assert Flat(s.handed) + s.batch + (s.channel + [e]) == Flat(s.handed) + s.batch + s.channel + [e];
  }

  lemma ReceiveKeeps(s: State, committed: bool)
    requires Inv(s) && Enabled(s, Receive(committed))
    ensures Inv(Next(s, Receive(committed)))
  {
    TakeKeeps(s);
    FlushKeeps(Take(s), committed);
  }

  lemma FinishKeeps(s: State, committed: bool)
    requires Inv(s) && Enabled(s, Finish(committed))
    ensures Inv(Next(s, Finish(committed)))
  {
    FlushKeeps(s, committed);
    FlushShape(s, committed);
    var t := Flushed(s, committed);
    assert Flat(t.handed) + [] + [] == Flat(t.handed);
    assert Flat(t.handed) == s.accepted;
  }

  lemma FlushShape(s: State, committed: bool)
    requires forall i :: 0 <= i < |s.handed| ==> s.handed[i].0 != []
    ensures var t := Flushed(s, committed);
            t.batch == [] && t.channel == s.channel && forall i :: 0 <= i < |t.handed| ==> t.handed[i].0 != []
  {
  }

  lemma StepKeeps(s: State, a: Step)
    requires Inv(s) && Enabled(s, a)
    ensures Inv(Next(s, a))
  {
    match a {
      case Record(e) => RecordKeeps(s, e);
      case Receive(committed) => ReceiveKeeps(s, committed);
      case Tick(committed) => FlushKeeps(s, committed);
      case DrainOne => TakeKeeps(s);
      case Finish(committed) => FinishKeeps(s, committed);
      case _ =>
    }
  }

  lemma {:induction false} RunKeeps(steps: seq<Step>)
    ensures Inv(Run(steps))
  {
    if steps != [] {
      var before := steps[..|steps| - 1];
      RunKeeps(before);
      if Enabled(Run(before), steps[|steps| - 1]) { StepKeeps(Run(before), steps[|steps| - 1]); }
    }
  }

  /** At every step of every run nothing taken in is lost, repeated or reordered, and everything
      offered is either taken in or counted as dropped. */
  lemma Conservation(steps: seq<Step>)
    ensures var s := Run(steps);
            Flat(s.handed) + s.batch + s.channel == s.accepted && |s.accepted| + s.dropped == s.recorded
  {
    RunKeeps(steps);
  }

  /** In every run an entry offered is dropped exactly when 2048 accepted ones are waiting to be taken
      into a batch. */
  lemma DropsWhenFull(steps: seq<Step>, e: Entry)
    ensures var s := Run(steps); var t := Next(s, Record(e));
            && (t.dropped == s.dropped + 1 && t.accepted == s.accepted <==> |s.accepted| - |Flat(s.handed)| - |s.batch| >= 2048)
            && (t.accepted == s.accepted + [e] && t.dropped == s.dropped <==> |s.accepted| - |Flat(s.handed)| - |s.batch| < 2048)
  {
    RunKeeps(steps);
  }

  /** And taking an entry hands a batch over exactly when it is the two hundredth. */
  lemma FlushesWhenFull(steps: seq<Step>, committed: bool)
    requires Enabled(Run(steps), Receive(committed))
    ensures var s := Run(steps); var t := Next(s, Receive(committed));
            if |s.batch| + 1 == 200 then t.handed == s.handed + [(s.batch + [s.channel[0]], committed)] && t.batch == []
            else t.handed == s.handed && t.batch == s.batch + [s.channel[0]]
  {
    RunKeeps(steps);
  }

  /** Once closed, everything accepted before the drain began, and so before the stop was asked for,
      has been handed over, once and in order; only entries that came later can be left in the
      channel. */
  lemma CloseHandsOver(steps: seq<Step>)
    requires Run(steps).phase.Closed?
    ensures var s := Run(steps);
            && s.atCancel <= s.atDrain <= |s.accepted|
            && s.accepted[..s.atCancel] <= s.accepted[..s.atDrain] <= Flat(s.handed) <= s.accepted
            && s.channel == s.accepted[|Flat(s.handed)|..]
  {
    RunKeeps(steps);
    var s := Run(steps);
    var f := Flat(s.handed);
    assert s.accepted == f + s.channel;
    assert s.accepted[..s.atDrain] == f[..s.atDrain];
  }

  // ---- What reaches the database ----

  /** The entries of the batches that were committed, in order. */
  function Committed(handed: seq<(seq<Entry>, bool)>): seq<Entry> {
    if handed == [] then []
    else Committed(handed[..|handed| - 1]) + (if handed[|handed| - 1].1 then handed[|handed| - 1].0 else [])
  }

  /** How many entries were handed over in batches that were not committed. */
  function Refused(handed: seq<(seq<Entry>, bool)>): nat {
    if handed == [] then 0
    else Refused(handed[..|handed| - 1]) + (if handed[|handed| - 1].1 then 0 else |handed[|handed| - 1].0|)
  }

  lemma {:induction false} HandedSplit(handed: seq<(seq<Entry>, bool)>)
    ensures |Flat(handed)| == |Committed(handed)| + Refused(handed)
  {
    if handed != [] { HandedSplit(handed[..|handed| - 1]); }
  }

  /** A crash loses what the database refused and less than one batch and one full channel. */
  lemma CrashLossBounded(steps: seq<Step>)
    requires Run(steps).phase.Running?
    ensures var s := Run(steps);
            |s.accepted| - |Committed(s.handed)| - Refused(s.handed) < 200 + 2048
            && forall i :: 0 <= i < |s.handed| ==> 0 < |s.handed[i].0| <= 200
  {
    RunKeeps(steps);
    HandedSplit(Run(steps).handed);
  }

  /** With a healthy database an insert commits unless its context is cancelled. The loop's own
      flushes use the context that is cancelled to stop it; the last flush has a fresh one. */
  predicate CommitsRight(s: State, a: Step) {
    match a
    case Receive(committed) => committed == !s.cancelled
    case Tick(committed) => committed == !s.cancelled
    case Finish(committed) => committed
    case _ => true
  }

  predicate Healthy(steps: seq<Step>) {
    steps == [] ||
    (Healthy(steps[..|steps| - 1])
     && (Enabled(Run(steps[..|steps| - 1]), steps[|steps| - 1]) ==> CommitsRight(Run(steps[..|steps| - 1]), steps[|steps| - 1])))
  }

  /** The entries flushed after the stop was asked for and before the loop noticed. */
  function Late(steps: seq<Step>): nat {
    if steps == [] then 0
    else
      var s, a := Run(steps[..|steps| - 1]), steps[|steps| - 1];
      Late(steps[..|steps| - 1])
      + (if Enabled(s, a) && s.cancelled && s.phase.Running? && |Next(s, a).handed| > |s.handed|
         then |Next(s, a).handed[|s.handed|].0| else 0)
  }

  /** One step hands over at most one batch, and says whether it was committed. */
  lemma StepHands(s: State, a: Step)
    requires Inv(s) && Enabled(s, a) && CommitsRight(s, a)
    ensures var t := Next(s, a);
            t.handed == s.handed ||
            (|t.handed| == |s.handed| + 1 && t.handed[..|s.handed|] == s.handed
             && (s.phase.Running? ==> t.handed[|s.handed|].1 == !s.cancelled)
             && (!s.phase.Running? ==> t.handed[|s.handed|].1))
  {
  }

  lemma {:induction false} RefusedIsLate(steps: seq<Step>)
    requires Healthy(steps)
    ensures Refused(Run(steps).handed) == Late(steps)
  {
    if steps != [] {
      var front, a := steps[..|steps| - 1], steps[|steps| - 1];
      RefusedIsLate(front);
      RunKeeps(front);
      if Enabled(Run(front), a) { StepHands(Run(front), a); }
    }
  }

  lemma {:induction false} NoneRefused(handed: seq<(seq<Entry>, bool)>)
    requires Refused(handed) == 0 && forall i :: 0 <= i < |handed| ==> handed[i].0 != []
    ensures Committed(handed) == Flat(handed)
  {
    if handed != [] { NoneRefused(handed[..|handed| - 1]); }
  }

  /** With a healthy database, once closed, everything accepted that did not come too late is
      committed, once and in order, exactly when nothing was flushed between the stop being asked
      for and the loop noticing. */
  lemma CloseCommitsExactly(steps: seq<Step>)
    requires Healthy(steps) && Run(steps).phase.Closed?
    ensures var s := Run(steps);
            && (s.accepted == Committed(s.handed) + s.channel <==> Late(steps) == 0)
            && |s.accepted| == |Committed(s.handed)| + Late(steps) + |s.channel|
            && s.atCancel <= |s.accepted|
            && (Late(steps) == 0 ==> s.accepted[..s.atCancel] <= Committed(s.handed))
  {
    var s := Run(steps);
    RunKeeps(steps);
    RefusedIsLate(steps);
    HandedSplit(s.handed);
    CloseHandsOver(steps);
    if Late(steps) == 0 { NoneRefused(s.handed); }
  }

  /** Before the stop a healthy database has everything that was handed over. */
  lemma {:induction false} RunningCommits(steps: seq<Step>)
    requires Healthy(steps) && !Run(steps).cancelled
    ensures Committed(Run(steps).handed) == Flat(Run(steps).handed)
  {
    RefusedIsLate(steps);
    NeverLate(steps);
    RunKeeps(steps);
    NoneRefused(Run(steps).handed);
  }

  lemma {:induction false} NeverLate(steps: seq<Step>)
    requires !Run(steps).cancelled
    ensures Late(steps) == 0
  {
    if steps != [] { NeverLate(steps[..|steps| - 1]); }
  }

  lemma OneMore(steps: seq<Step>, a: Step) returns (more: seq<Step>)
    requires Enabled(Run(steps), a) && Healthy(steps) && CommitsRight(Run(steps), a)
    ensures more == steps + [a] && Healthy(more) && Run(more) == Next(Run(steps), a)
  {
    more := steps + [a];
    assert more[..|more| - 1] == steps;
  }

  /** The window is real: for every entry some run of a healthy database accepts it before the stop
      and closes without it. */
  lemma LateFlushLoses(e: Entry) returns (steps: seq<Step>)
    ensures Healthy(steps)
    ensures var s := Run(steps); s.phase.Closed? && s.atCancel == 1 && s.accepted == [e] && Committed(s.handed) == []
  {
    steps := OneMore([], Record(e));
    steps := OneMore(steps, Receive(true));
    assert Run(steps).batch == [e] && Run(steps).handed == [];
    steps := OneMore(steps, Cancel);
    steps := OneMore(steps, Tick(false));
    assert Run(steps).handed == [([e], false)];
    steps := OneMore(steps, StartDrain);
    steps := OneMore(steps, Finish(true));
    assert Run(steps).handed[..0] == [];
  }

  // ---- The table of rows ----

  ghost predicate IdsAscend(rows: seq<Row>) {
    forall i, j :: 0 <= i < j < |rows| ==> rows[i].id < rows[j].id
  }

  function Numbered(batch: seq<Entry>, first: nat): seq<Row> {
    seq(|batch|, i requires 0 <= i < |batch| => Row(first + i, batch[i]))
  }

  /** One insertBatch: all rows, numbered on, or none. */
  function Inserted(rows: seq<Row>, nextId: nat, batch: seq<Entry>, committed: bool): (seq<Row>, nat) {
    if committed then (rows + Numbered(batch, nextId), nextId + |batch|) else (rows, nextId)
  }

  /** The table after every batch handed over. */
  function Table(handed: seq<(seq<Entry>, bool)>): (seq<Row>, nat) {
    if handed == [] then ([], 1)
    else
      var before := Table(handed[..|handed| - 1]);
      Inserted(before.0, before.1, handed[|handed| - 1].0, handed[|handed| - 1].1)
  }

  /** The rows of the table are the committed entries, in order, numbered from one. */
  lemma {:induction false} TableHoldsCommitted(handed: seq<(seq<Entry>, bool)>)
    ensures |Table(handed).0| == |Committed(handed)|
    ensures forall i :: 0 <= i < |Committed(handed)| ==> Table(handed).0[i] == Row(i + 1, Committed(handed)[i])
    ensures Table(handed).0 == Numbered(Committed(handed), 1) && Table(handed).1 == |Committed(handed)| + 1
  {
    if handed != [] {
      var front, last := handed[..|handed| - 1], handed[|handed| - 1];
      TableHoldsCommitted(front);
      if last.1 { NumberedAppend(Committed(front), last.0, 1); }
    }
  }

  lemma NumberedAppend(a: seq<Entry>, b: seq<Entry>, first: nat)
    ensures Numbered(a + b, first) == Numbered(a, first) + Numbered(b, first + |a|)
  {
  }

  class Store {
    var rows: seq<Row>
    var nextId: nat

    constructor ()
      ensures Valid() && (rows, nextId) == Table([])
    {
      rows, nextId := [], 1;
    }

    ghost predicate Valid()
      reads this
    {
      IdsAscend(rows) && forall i :: 0 <= i < |rows| ==> rows[i].id < nextId
    }

    /** insertBatch in one transaction: failAt is the entry whose insert fails, if any, and
        committed whether the commit goes through. */
    method InsertBatch(batch: seq<Entry>, failAt: Option<nat>, commits: bool) returns (committed: bool)
      requires Valid()
      modifies this
      ensures Valid()
      ensures committed == (commits && (failAt.None? || failAt.value >= |batch|))
      ensures !committed ==> rows == old(rows) && nextId == old(nextId)
      ensures committed ==> |rows| == |old(rows)| + |batch| && rows[..|old(rows)|] == old(rows) && nextId == old(nextId) + |batch|
      ensures committed ==> forall i :: 0 <= i < |batch| ==> rows[|old(rows)| + i] == Row(old(nextId) + i, batch[i])
      ensures (rows, nextId) == Inserted(old(rows), old(nextId), batch, committed)
    {
      var tx := rows;
      var id := nextId;
      for i := 0 to |batch|
        invariant tx == rows + Numbered(batch, nextId)[..i] && id == nextId + i
        invariant rows == old(rows) && nextId == old(nextId)
        invariant failAt.Some? ==> failAt.value >= i
      {
        if failAt == Some(i) { return false; }
        tx := tx + [Row(id, batch[i])];
        id := id + 1;
      }
      if !commits { return false; }
      assert Numbered(batch, nextId)[..|batch|] == Numbered(batch, nextId);
      rows, nextId := tx, id;
      return true;
    }

    /** prune: delete rows older than the cutoff, then the row maxRows back from the newest and
        everything with a smaller id. */
    method Prune(cutoff: int, maxRows: nat)
      requires Valid()
      modifies this
      ensures Valid()
      ensures |rows| <= maxRows && forall x :: x in rows ==> x in old(rows) && x.e.ts >= cutoff
      ensures forall x, y :: x in rows && y in old(rows) && y.e.ts >= cutoff && y !in rows ==> y.id < x.id && |rows| == maxRows
      ensures rows == [] && maxRows > 0 ==> forall y :: y in old(rows) ==> y.e.ts < cutoff
      ensures rows == Newest(Young(old(rows), cutoff), maxRows)
    {
      DeleteOld(cutoff);
      ghost var young := rows;
      DeleteExcess(maxRows);
      NewestAreLast(young, maxRows);
    }

    method DeleteOld(cutoff: int)
      requires Valid()
      modifies this
      ensures Valid() && rows == Young(old(rows), cutoff)
    {
      YoungAscend(rows, cutoff);
      rows := Young(rows, cutoff);
      forall i | 0 <= i < |rows| ensures rows[i].id < nextId { assert rows[i] in rows; }
    }

    /** The subquery finds no row when there are maxRows or fewer, and nothing is deleted. */
    method DeleteExcess(maxRows: nat)
      requires Valid()
      modifies this
      ensures Valid() && rows == if |old(rows)| <= maxRows then old(rows) else old(rows)[|old(rows)| - maxRows..]
    {
      if |rows| > maxRows {
        BelowIsPrefix(rows, |rows| - 1 - maxRows);
        rows := Above(rows, rows[|rows| - 1 - maxRows].id);
      }
    }
  }

  function Young(rows: seq<Row>, cutoff: int): (r: seq<Row>)
    ensures forall x :: x in r <==> x in rows && x.e.ts >= cutoff
  {
    if rows == [] then []
    else Young(rows[..|rows| - 1], cutoff) + (if rows[|rows| - 1].e.ts < cutoff then [] else [rows[|rows| - 1]])
  }

  function Above(rows: seq<Row>, id: nat): seq<Row> {
    if rows == [] then []
    else Above(rows[..|rows| - 1], id) + (if rows[|rows| - 1].id <= id then [] else [rows[|rows| - 1]])
  }

  function Newest(rows: seq<Row>, n: nat): seq<Row> {
    if |rows| <= n then rows else rows[|rows| - n..]
  }

  /** The rows kept are the ones with the largest ids, and as many as there may be. */
  lemma NewestAreLast(rows: seq<Row>, n: nat)
    requires IdsAscend(rows)
    ensures |Newest(rows, n)| == Min(|rows|, n)
    ensures forall x :: x in Newest(rows, n) ==> x in rows
    ensures forall x, y :: x in Newest(rows, n) && y in rows && y !in Newest(rows, n) ==> y.id < x.id && |Newest(rows, n)| == n
  {
    var kept := Newest(rows, n);
    assert |rows| > n ==> forall m :: |rows| - n <= m < |rows| ==> kept[m - (|rows| - n)] == rows[m];
    forall x, y | x in kept && y in rows && y !in kept ensures y.id < x.id && |kept| == n {
      var j :| 0 <= j < |rows| && rows[j] == y;
      var i :| 0 <= i < |kept| && kept[i] == x;
      assert |rows| > n ==> kept[i] == rows[|rows| - n + i];
    }
  }

  lemma {:induction false} YoungAscend(rows: seq<Row>, cutoff: int)
    requires IdsAscend(rows)
    ensures IdsAscend(Young(rows, cutoff))
  {
    if rows != [] {
      var front := rows[..|rows| - 1];
      YoungAscend(front, cutoff);
      forall x | x in Young(front, cutoff) ensures x.id < rows[|rows| - 1].id {
        assert x in front;
      }
      var y := Young(front, cutoff);
      forall i | 0 <= i < |y| ensures y[i].id < rows[|rows| - 1].id { assert y[i] in y; }
    }
  }

  /** Deleting up to the id found at position k keeps exactly the rows after it. */
  lemma {:induction false} BelowIsPrefix(rows: seq<Row>, k: nat)
    requires IdsAscend(rows) && k < |rows|
    ensures Above(rows, rows[k].id) == rows[k + 1..]
  {
    var n := |rows| - 1;
    if k == n {
      NoneAbove(rows, rows[k].id);
    } else {
      BelowIsPrefix(rows[..n], k);
      assert rows[k + 1..] == rows[..n][k + 1..] + [rows[n]];
    }
  }

  lemma {:induction false} NoneAbove(rows: seq<Row>, id: nat)
    requires forall i :: 0 <= i < |rows| ==> rows[i].id <= id
    ensures Above(rows, id) == []
  {
    if rows != [] { NoneAbove(rows[..|rows| - 1], id); }
  }
}
