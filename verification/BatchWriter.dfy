/**
 * The batch writers: the consumer side of the drop-oldest queue gathers rows into batches and inserts each batch with
 * one retry. The same code serves observations and raw posts.
 */
module BatchWriter {
  import opened DropQueue

  /** One call of the database insert, after its retry. */
  datatype Insert<T> = Insert(rows: seq<T>, ok: bool)

  /** The consumer's side of a writer: the batch in progress, the inserts so far, and the counters. */
  datatype Tally<T> = Tally(batch: seq<T>, inserts: seq<Insert<T>>, written: nat, errors: nat, batchesDropped: nat)

  function Taken<T>(t: Tally<T>, x: T): Tally<T> { t.(batch := t.batch + [x]) }

  /**
   * flushBatch: nothing for an empty batch; otherwise the rows count as written or as errors, and the batch is reset.
   */
  function Flushed<T>(t: Tally<T>, ok: bool): Tally<T> {
    if t.batch == [] then t
    else
      var t' := t.(batch := [], inserts := t.inserts + [Insert(t.batch, ok)]);
      if ok then t'.(written := t.written + |t.batch|)
      else t'.(errors := t.errors + |t.batch|, batchesDropped := t.batchesDropped + 1)
  }

  /** All rows handed to the database, in order. */
  function Rows<T>(inserts: seq<Insert<T>>): seq<T> {
    if inserts == [] then [] else Rows(inserts[..|inserts| - 1]) + inserts[|inserts| - 1].rows
  }

  /** The number of rows in the inserts that ended so. */
  function RowCount<T>(inserts: seq<Insert<T>>, ok: bool): nat {
    if inserts == [] then 0
    else
      var last := inserts[|inserts| - 1];
      RowCount(inserts[..|inserts| - 1], ok) + (if last.ok == ok then |last.rows| else 0)
  }

  function Failures<T>(inserts: seq<Insert<T>>): nat {
    if inserts == [] then 0 else Failures(inserts[..|inserts| - 1]) + (if inserts[|inserts| - 1].ok then 0 else 1)
  }

  lemma InsertsGrow<T>(inserts: seq<Insert<T>>, i: Insert<T>)
    ensures Rows(inserts + [i]) == Rows(inserts) + i.rows
    ensures forall ok :: RowCount(inserts + [i], ok) == RowCount(inserts, ok) + (if i.ok == ok then |i.rows| else 0)
    ensures Failures(inserts + [i]) == Failures(inserts) + (if i.ok then 0 else 1)
  {
    assert (inserts + [i])[..|inserts|] == inserts;
  }

  lemma {:induction false} RowsAreWrittenOrErrors<T>(inserts: seq<Insert<T>>)
    ensures |Rows(inserts)| == RowCount(inserts, true) + RowCount(inserts, false)
  {
    if inserts != [] {
      RowsAreWrittenOrErrors(inserts[..|inserts| - 1]);
    }
  }

  /**
   * What was consumed is what was inserted, in order and without gaps or repeats, followed by the batch in progress.
   */
  ghost predicate Covers<T>(t: Tally<T>, consumed: seq<T>) { consumed == Rows(t.inserts) + t.batch }

  /** No insert is empty or above the limit. */
  ghost predicate Bounded<T>(t: Tally<T>, maxBatch: nat) {
    |t.batch| <= maxBatch && forall i | 0 <= i < |t.inserts| :: 0 < |t.inserts[i].rows| <= maxBatch
  }

  /** The counters count rows and failed batches. */
  ghost predicate Counted<T>(t: Tally<T>) {
    && t.written == RowCount(t.inserts, true) && t.errors == RowCount(t.inserts, false)
    && t.batchesDropped == Failures(t.inserts)
  }

  ghost predicate Sound<T>(t: Tally<T>, maxBatch: nat, consumed: seq<T>) {
    Covers(t, consumed) && Bounded(t, maxBatch) && Counted(t)
  }

  lemma FlushedCovers<T>(t: Tally<T>, consumed: seq<T>, ok: bool)
    requires Covers(t, consumed)
    ensures Covers(Flushed(t, ok), consumed)
  {
    InsertsGrow(t.inserts, Insert(t.batch, ok));
  }

  lemma FlushedIsCounted<T>(t: Tally<T>, ok: bool)
    requires Counted(t)
    ensures Counted(Flushed(t, ok))
  {
    InsertsGrow(t.inserts, Insert(t.batch, ok));
  }

  lemma FlushedIsBounded<T>(t: Tally<T>, maxBatch: nat, ok: bool)
    requires Bounded(t, maxBatch)
    ensures Bounded(Flushed(t, ok), maxBatch)
  {
  }

  lemma FlushedIsSound<T>(t: Tally<T>, maxBatch: nat, consumed: seq<T>, ok: bool)
    requires Sound(t, maxBatch, consumed)
    ensures Sound(Flushed(t, ok), maxBatch, consumed)
  {
    FlushedCovers(t, consumed, ok);
    FlushedIsCounted(t, ok);
    FlushedIsBounded(t, maxBatch, ok);
  }

  lemma TakenIsSound<T>(t: Tally<T>, maxBatch: nat, consumed: seq<T>, x: T)
    requires Sound(t, maxBatch, consumed) && |t.batch| < maxBatch
    ensures Sound(Taken(t, x), maxBatch, consumed + [x])
  {
    assert Rows(t.inserts) + (t.batch + [x]) == Rows(t.inserts) + t.batch + [x];
  }

  // ------------------------------------------------- writer and producers

  datatype Writer<T> = Writer(queue: Queue<T>, tally: Tally<T>, maxBatch: nat)

  /** A producer's step, the receive of the writer's loop, or a flush with the outcomes of its two attempts. */
  datatype Event<T> = Produce(a: Action<T>) | Receive | Flush(first: bool, second: bool)

  function Fresh<T>(cap: nat, n: nat, maxBatch: nat): Writer<T> {
    Writer(Start(cap, n), Tally([], [], 0, 0, 0), maxBatch)
  }

  /** A full batch is flushed before the next receive. */
  function React<T>(w: Writer<T>, e: Event<T>): Writer<T> {
    match e
    case Produce(a) => if a.Consume? then w else w.(queue := Apply(w.queue, a))
    case Receive =>
      if w.queue.chan == [] || |w.tally.batch| >= w.maxBatch then w
      else w.(queue := Apply(w.queue, Consume), tally := Taken(w.tally, w.queue.chan[0]))
    case Flush(first, second) => w.(tally := Flushed(w.tally, first || second))
  }

  function Ran<T>(w: Writer<T>, run: seq<Event<T>>): Writer<T> {
    if run == [] then w else React(Ran(w, run[..|run| - 1]), run[|run| - 1])
  }

  /** The queue of a writer goes through a run of the drop-oldest queue. */
  lemma {:induction false} QueueRun<T>(
      cap: nat, n: nat, maxBatch: nat, run: seq<Event<T>>)
    returns (qrun: seq<Action<T>>)
    ensures Ran(Fresh(cap, n, maxBatch), run).queue == After(Start(cap, n), qrun)
  {
    qrun := [];
    if run != [] {
      var w, e := Ran(Fresh(cap, n, maxBatch), run[..|run| - 1]), run[|run| - 1];
      qrun := QueueRun(cap, n, maxBatch, run[..|run| - 1]);
      if React(w, e).queue != w.queue {
        qrun := OneMore(Start(cap, n), qrun, if e.Receive? then Consume else e.a);
      }
    }
  }

  lemma {:induction false} WriterIsSound<T>(cap: nat, n: nat, maxBatch: nat, run: seq<Event<T>>)
    ensures var w := Ran(Fresh(cap, n, maxBatch), run);
      w.maxBatch == maxBatch && Sound(w.tally, maxBatch, w.queue.consumed)
  {
    if run != [] {
      var w, e := Ran(Fresh(cap, n, maxBatch), run[..|run| - 1]), run[|run| - 1];
      WriterIsSound(cap, n, maxBatch, run[..|run| - 1]);
      match e
      case Produce(a) =>
        if !a.Consume? {
          ProducersDoNotConsume(w.queue, a);
        }
      case Receive =>
        if w.queue.chan != [] && |w.tally.batch| < maxBatch {
          TakenIsSound(w.tally, maxBatch, w.queue.consumed, w.queue.chan[0]);
        }
      case Flush(first, second) => FlushedIsSound(w.tally, maxBatch, w.queue.consumed, first || second);
    }
  }

  lemma ProducersDoNotConsume<T>(q: Queue<T>, a: Action<T>)
    requires !a.Consume?
    ensures Apply(q, a).consumed == q.consumed
  {
  }

  /**
   * Writer accounting, in every interleaving of producers, receives and flushes: submitted = written + errors +
   * dropped + queued + batched + in flight, where a loss about to be counted is dropped already.
   */
  lemma WriterAccounting<T>(cap: nat, n: nat, maxBatch: nat, run: seq<Event<T>>)
    ensures var w := Ran(Fresh(cap, n, maxBatch), run);
      |w.queue.submitted| == w.tally.written + w.tally.errors
        + (w.queue.counter + Total(Uncounted, w.queue.producers, ()))
                             + |w.queue.chan| + |w.tally.batch| + Total(Busy, w.queue.producers, ())
  {
    var w := Ran(Fresh(cap, n, maxBatch), run);
    var qrun := QueueRun(cap, n, maxBatch, run);
    CountsAlways(cap, n, qrun);
    WriterIsSound(cap, n, maxBatch, run);
    RowsAreWrittenOrErrors(w.tally.inserts);
  }

  /**
   * Row by row: every submission of x is in flight, queued, batched, inserted or dropped; and rows go in send order.
   */
  lemma EveryRowOnce<T>(cap: nat, n: nat, maxBatch: nat, run: seq<Event<T>>, x: T)
    ensures var w := Ran(Fresh(cap, n, maxBatch), run);
      && Occ(w.queue.submitted, x) == Total(Flying, w.queue.producers, x) + Occ(w.queue.chan, x)
                                      + Occ(Rows(w.tally.inserts) + w.tally.batch, x) + Occ(w.queue.dropped, x)
      && InOrder(w.queue) && w.queue.consumed == Rows(w.tally.inserts) + w.tally.batch
  {
    var qrun := QueueRun(cap, n, maxBatch, run);
    NothingIsUnaccounted(cap, n, qrun, x);
    ConsumedInSendOrder(cap, n, qrun);
    WriterIsSound(cap, n, maxBatch, run);
  }

  // ------------------------------------------------------------- draining

  /** The consumer with the number of insert attempts made; answers is what the database says to each attempt. */
  datatype Consumer<T> = Consumer(tally: Tally<T>, attempts: nat)

  /** flushBatch with its one retry. */
  function FlushWith<T>(c: Consumer<T>, answers: nat -> bool): Consumer<T> {
    var first := answers(c.attempts);
    if c.tally.batch == [] then c
    else Consumer(Flushed(c.tally, first || answers(c.attempts + 1)), c.attempts + if first then 1 else 2)
  }

  /** The receive case: append, and flush a full batch. */
  function ReceiveWith<T>(c: Consumer<T>, x: T, maxBatch: nat, answers: nat -> bool): Consumer<T> {
    var c' := c.(tally := Taken(c.tally, x));
    if |c'.tally.batch| < maxBatch then c' else FlushWith(c', answers)
  }

  /** drainAndFlush: receive all there is, then flush the rest. */
  function Drained<T>(c: Consumer<T>, inbox: seq<T>, maxBatch: nat, answers: nat -> bool): Consumer<T>
    decreases |inbox|
  {
    if inbox == [] then FlushWith(c, answers)
    else Drained(ReceiveWith(c, inbox[0], maxBatch, answers), inbox[1..], maxBatch, answers)
  }

  /** Each insert from the n-th on has exactly maxBatch rows. */
  ghost predicate FullFrom<T>(inserts: seq<Insert<T>>, n: nat, maxBatch: nat) {
    n <= |inserts| && forall i | n <= i < |inserts| :: |inserts[i].rows| == maxBatch
  }

  lemma FlushKeepsFull<T>(t: Tally<T>, n: nat, maxBatch: nat, ok: bool)
    requires FullFrom(t.inserts, n, maxBatch) && |t.batch| == maxBatch
    ensures FullFrom(Flushed(t, ok).inserts, n, maxBatch)
  {
  }

  /** A receive that fills the batch, with what its flush comes to. */
  lemma FullReceive<T>(t: Tally<T>, maxBatch: nat, consumed: seq<T>, n: nat, ok: bool)
    requires maxBatch > 0 && |t.batch| == maxBatch && Sound(t, maxBatch, consumed) && FullFrom(t.inserts, n, maxBatch)
    ensures var t' := Flushed(t, ok);
      |t'.batch| < maxBatch && Sound(t', maxBatch, consumed) && FullFrom(t'.inserts, n, maxBatch)
  {
    FlushedIsSound(t, maxBatch, consumed, ok);
    FlushKeepsFull(t, n, maxBatch, ok);
  }

  lemma ReceiveIsSound<T>(c: Consumer<T>, x: T, maxBatch: nat, answers: nat -> bool, consumed: seq<T>, n: nat)
    requires |c.tally.batch| < maxBatch && Sound(c.tally, maxBatch, consumed) && FullFrom(c.tally.inserts, n, maxBatch)
    ensures var t := ReceiveWith(c, x, maxBatch, answers).tally;
      |t.batch| < maxBatch && Sound(t, maxBatch, consumed + [x]) && FullFrom(t.inserts, n, maxBatch)
  {
    var t := Taken(c.tally, x);
    TakenIsSound(c.tally, maxBatch, consumed, x);
    if |t.batch| == maxBatch {
      FullReceive(t, maxBatch, consumed + [x], n, answers(c.attempts) || answers(c.attempts + 1));
    }
  }

  lemma ReceiveIsSteady<T>(c: Consumer<T>, x: T, maxBatch: nat, answers: nat -> bool)
    requires |c.tally.batch| < maxBatch && Bounded(c.tally, maxBatch) && Counted(c.tally)
    ensures var t := ReceiveWith(c, x, maxBatch, answers).tally;
      |t.batch| < maxBatch && Bounded(t, maxBatch) && Counted(t)
  {
    var t := Taken(c.tally, x);
    assert Bounded(t, maxBatch) && Counted(t);
    if |t.batch| == maxBatch {
      FlushedIsBounded(t, maxBatch, answers(c.attempts) || answers(c.attempts + 1));
      FlushedIsCounted(t, answers(c.attempts) || answers(c.attempts + 1));
    }
  }

  /** The inserts from the n-th on are full, except perhaps the last. */
  ghost predicate FullButLast<T>(inserts: seq<Insert<T>>, n: nat, maxBatch: nat) {
    n <= |inserts| && forall i | n <= i < |inserts| - 1 :: |inserts[i].rows| == maxBatch
  }

  lemma FlushKeepsFullButLast<T>(t: Tally<T>, n: nat, maxBatch: nat, ok: bool)
    requires FullFrom(t.inserts, n, maxBatch)
    ensures FullButLast(Flushed(t, ok).inserts, n, maxBatch)
  {
  }

  /** With the batch empty, every row consumed is written or an error. */
  lemma EmptyBatchCounts<T>(t: Tally<T>, consumed: seq<T>)
    requires Covers(t, consumed) && Counted(t) && t.batch == []
    ensures t.written + t.errors == |consumed|
  {
    RowsAreWrittenOrErrors(t.inserts);
  }

  lemma LastFlush<T>(t: Tally<T>, maxBatch: nat, consumed: seq<T>, n: nat, ok: bool)
    requires Sound(t, maxBatch, consumed) && FullFrom(t.inserts, n, maxBatch)
    ensures var t' := Flushed(t, ok);
      && t'.batch == [] && Sound(t', maxBatch, consumed) && FullButLast(t'.inserts, n, maxBatch)
      && t'.written + t'.errors == |consumed|
  {
    FlushedIsSound(t, maxBatch, consumed, ok);
    FlushKeepsFullButLast(t, n, maxBatch, ok);
    EmptyBatchCounts(Flushed(t, ok), consumed);
  }

  /**
   * A drain empties the batch and hands every row of the batch and the channel to the database, in order, in batches
   * that are all full except perhaps the last, and counts each row once.
   */
  lemma {:induction false} DrainIsComplete<T>(
      c: Consumer<T>, inbox: seq<T>, maxBatch: nat, answers: nat -> bool, consumed: seq<T>, n: nat)
    requires |c.tally.batch| < maxBatch && Sound(c.tally, maxBatch, consumed) && FullFrom(c.tally.inserts, n, maxBatch)
    ensures var t := Drained(c, inbox, maxBatch, answers).tally;
      && t.batch == [] && Sound(t, maxBatch, consumed + inbox) && FullButLast(t.inserts, n, maxBatch)
      && t.written + t.errors == |consumed| + |inbox|
    decreases |inbox|
  {
    if inbox == [] {
      LastFlush(c.tally, maxBatch, consumed, n, answers(c.attempts) || answers(c.attempts + 1));
      assert consumed + inbox == consumed;
    } else {
      ReceiveIsSound(c, inbox[0], maxBatch, answers, consumed, n);
      DrainIsComplete(ReceiveWith(c, inbox[0], maxBatch, answers), inbox[1..], maxBatch, answers,
        consumed + [inbox[0]], n);
      assert consumed + [inbox[0]] + inbox[1..] == consumed + inbox;
    }
  }

  // ------------------------------------------------- the database's answers

  /** A flush is one insert of the whole batch, which fails exactly when both its attempts do. */
  lemma FlushIsDecidedByTwoAttempts<T>(c: Consumer<T>, answers: nat -> bool)
    requires c.tally.batch != []
    ensures var n, rows, c' := c.attempts, |c.tally.batch|, FlushWith(c, answers);
      && (!answers(n) && !answers(n + 1) ==>
            && c'.tally.inserts == c.tally.inserts + [Insert(c.tally.batch, false)]
            && c'.tally.written == c.tally.written && c'.tally.errors == c.tally.errors + rows
            && c'.tally.batchesDropped == c.tally.batchesDropped + 1)
      && (answers(n) || answers(n + 1) ==>
            && c'.tally.inserts == c.tally.inserts + [Insert(c.tally.batch, true)]
            && c'.tally.written == c.tally.written + rows && c'.tally.errors == c.tally.errors
            && c'.tally.batchesDropped == c.tally.batchesDropped)
      && (c'.attempts == n + 1 <==> answers(n)) && (c'.attempts == n + 2 <==> !answers(n))
  {
  }

  /** No attempt fails right after another failure. */
  ghost predicate FailsAlone(answers: nat -> bool) { forall n: nat :: answers(n) || answers(n + 1) }

  /** Every attempt fails. */
  ghost predicate AlwaysFails(answers: nat -> bool) { forall n: nat :: !answers(n) }

  /** A database that never fails twice in a row loses no row of a drain. */
  lemma {:induction false} RetryLosesNothing<T>(c: Consumer<T>, inbox: seq<T>, maxBatch: nat, answers: nat -> bool)
    requires FailsAlone(answers)
    ensures var t, t' := c.tally, Drained(c, inbox, maxBatch, answers).tally;
      && t'.errors == t.errors && t'.batchesDropped == t.batchesDropped
      && t'.written == t.written + |t.batch| + |inbox|
    decreases |inbox|
  {
    assert answers(c.attempts) || answers(c.attempts + 1);
    if inbox != [] {
      RetryLosesNothing(ReceiveWith(c, inbox[0], maxBatch, answers), inbox[1..], maxBatch, answers);
    }
  }

  /** A database that is down loses every row of a drain, and each of its inserts is attempted twice. */
  lemma {:induction false} DownLosesEverything<T>(c: Consumer<T>, inbox: seq<T>, maxBatch: nat, answers: nat -> bool)
    requires AlwaysFails(answers)
    ensures var c' := Drained(c, inbox, maxBatch, answers);
      && c'.tally.written == c.tally.written && c'.tally.errors == c.tally.errors + |c.tally.batch| + |inbox|
      && c'.attempts - c.attempts == 2 * (|c'.tally.inserts| - |c.tally.inserts|)
      && c'.tally.batchesDropped - c.tally.batchesDropped == |c'.tally.inserts| - |c.tally.inserts|
    decreases |inbox|
  {
    assert !answers(c.attempts) && !answers(c.attempts + 1);
    if inbox != [] {
      DownLosesEverything(ReceiveWith(c, inbox[0], maxBatch, answers), inbox[1..], maxBatch, answers);
    }
  }

  /** In the interleaving model a flush does what flushBatch does when its two attempts end as the event says. */
  lemma FlushEventIsFlush<T>(w: Writer<T>, n: nat, answers: nat -> bool)
    ensures var w' := React(w, Flush(answers(n), answers(n + 1)));
      w'.queue == w.queue && w'.tally == FlushWith(Consumer(w.tally, n), answers).tally
  {
  }

  /** In every interleaving rows are lost to the database only by flushes that failed twice. */
  lemma {:induction false} ErrorsNeedTwoFailures<T>(cap: nat, n: nat, maxBatch: nat, run: seq<Event<T>>)
    requires forall i | 0 <= i < |run| :: run[i] != Flush(false, false)
    ensures var t := Ran(Fresh(cap, n, maxBatch), run).tally;
      t.errors == 0 && t.batchesDropped == 0 && t.written == |Rows(t.inserts)|
  {
    WriterIsSound(cap, n, maxBatch, run);
    if run != [] {
      ErrorsNeedTwoFailures(cap, n, maxBatch, run[..|run| - 1]);
      assert run[|run| - 1] != Flush(false, false);
    }
    RowsAreWrittenOrErrors(Ran(Fresh(cap, n, maxBatch), run).tally.inserts);
  }

  // -------------------------------------------------- the writer in place

  /** A writer; what others do to its channel during a Submit is a parameter, and its own methods run undisturbed. */
  class RowWriter<T(!new)> {
    const capacity: nat
    const maxBatch: nat
    const flushTickMs: int
    const answers: nat -> bool
    var inbox: seq<T>
    var batch: seq<T>
    var inserts: seq<Insert<T>>
    var attempts: nat
    var dropped: nat
    var reported: seq<T>
    var written: nat
    var errors: nat
    var batchesDropped: nat

    ghost function View(): Consumer<T>
      reads this
    {
      Consumer(Tally(batch, inserts, written, errors, batchesDropped), attempts)
    }

    ghost predicate Valid()
      reads this
    {
      && 0 < capacity && |inbox| <= capacity && |batch| < maxBatch
      && Bounded(View().tally, maxBatch) && Counted(View().tally)
    }

    /** The options, where zero or less asks for the writer's own default, or for one second between flushes. */
    constructor (
        bufferSize: int, batchSize: int, flushIntervalMs: int, defaultBuffer: nat, defaultBatch: nat,
        answers: nat -> bool)
      requires defaultBuffer > 0 && defaultBatch > 0
      ensures Valid() && View() == Consumer(Tally([], [], 0, 0, 0), 0) && inbox == [] && dropped == 0 && reported == []
      ensures capacity == (if bufferSize <= 0 then defaultBuffer else bufferSize)
      ensures maxBatch == (if batchSize <= 0 then defaultBatch else batchSize)
      ensures flushTickMs == (if flushIntervalMs <= 0 then 1000 else flushIntervalMs)
      ensures this.answers == answers
    {
      flushTickMs := if flushIntervalMs <= 0 then 1000 else flushIntervalMs;
      capacity := if bufferSize <= 0 then defaultBuffer else bufferSize;
      maxBatch := if batchSize <= 0 then defaultBatch else batchSize;
      this.answers := answers;
      inbox, batch, inserts, attempts := [], [], [], 0;
      dropped, reported, written, errors, batchesDropped := 0, [], 0, 0, 0;
    }

    /** Submit, whatever the other producers and the writer do meanwhile. */
    method Submit(x: T, others: Others<T>)
      requires Valid() && Respects(others, capacity)
      modifies this`inbox, this`dropped, this`reported
      ensures Valid()
      ensures var a := Attempted(old(inbox), capacity, x, others);
        inbox == a.chan && dropped == old(dropped) + a.lost && reported == old(reported) + a.told
    {
      if |inbox| < capacity {
        inbox := inbox + [x];
        return;
      }
      inbox := others.first(inbox);
      var evicted := [];
      if inbox != [] {
        evicted := [inbox[0]];
        inbox := inbox[1..];
        dropped := dropped + 1;
      }
      inbox := others.second(inbox);
      if |inbox| < capacity {
        inbox := inbox + [x];
        reported := reported + evicted;
      } else {
        dropped := dropped + 1;
        reported := reported + [x];
      }
    }

    /** insertWithRetry: one more attempt after a failure. */
    method InsertWithRetry() returns (ok: bool)
      modifies this`attempts
      ensures ok <==> answers(old(attempts)) || answers(old(attempts) + 1)
      ensures attempts == old(attempts) + (if answers(old(attempts)) then 1 else 2)
    {
      ok := answers(attempts);
      attempts := attempts + 1;
      if !ok {
        ok := answers(attempts);
        attempts := attempts + 1;
      }
    }

    method FlushBatch()
      modifies this`attempts, this`batch, this`inserts, this`written, this`errors, this`batchesDropped
      ensures View() == FlushWith(old(View()), answers)
    {
      if batch == [] {
        return;
      }
      var rows := |batch|;
      var ok := InsertWithRetry();
      inserts := inserts + [Insert(batch, ok)];
      if !ok {
        errors := errors + rows;
        batchesDropped := batchesDropped + 1;
      } else {
        written := written + rows;
      }
      batch := [];
    }

    /** The receive case of the loops in Run and drainAndFlush. */
    method ReceiveOne()
      requires Valid() && inbox != []
      modifies this`inbox, this`attempts, this`batch, this`inserts, this`written, this`errors, this`batchesDropped
      ensures Valid() && inbox == old(inbox)[1..]
        && View() == ReceiveWith(old(View()), old(inbox)[0], maxBatch, answers)
    {
      ReceiveIsSteady(View(), inbox[0], maxBatch, answers);
      batch := batch + [inbox[0]];
      inbox := inbox[1..];
      if |batch| >= maxBatch {
        FlushBatch();
      }
    }

    /** drainAndFlush terminates with the channel and the batch empty, and every row handed over in order. */
    method DrainAndFlush()
      requires Valid()
      modifies this`inbox, this`attempts, this`batch, this`inserts, this`written, this`errors, this`batchesDropped
      ensures Valid() && inbox == [] && batch == [] && View() == Drained(old(View()), old(inbox), maxBatch, answers)
      ensures Sound(View().tally, maxBatch, old(Rows(inserts)) + old(batch) + old(inbox))
      ensures FullButLast(inserts, |old(inserts)|, maxBatch)
    {
      DrainIsComplete(View(), inbox, maxBatch, answers, Rows(inserts) + batch, |inserts|);
      while inbox != []
        invariant Valid() && Drained(View(), inbox, maxBatch, answers) == old(Drained(View(), inbox, maxBatch, answers))
        decreases |inbox|
      {
        ReceiveOne();
      }
      FlushBatch();
    }
  }
}
