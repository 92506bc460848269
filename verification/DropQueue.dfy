/**
 * The drop-oldest queue: many producers run the same three-step, non-blocking protocol on one bounded channel that a
 * single consumer reads. Every channel operation, counter increment and hook call is one atomic step, and a run is
 * any interleaving of them.
 */
module DropQueue {
  import opened Wrappers

  /** Where one producer is in its call. */
  datatype Producer<T> =
    | Idle
    | Trying(item: T)                               // about to send
    | Full(item: T)                                 // refused once: about to take the oldest
    | CountingEviction(item: T, evicted: T)         // took the oldest: about to count it
    | Retrying(item: T, evictedBefore: Option<T>)   // about to send again
    | ReportingEviction(evicted: T)                 // sent: owes the hook the evicted item
    | CountingRefusal(refused: T)                   // refused twice: about to count the new item
    | ReportingRefusal(refused: T)                  // counted: owes the hook the new item

  /**
   * The channel and its counter, with the history of a run: what was submitted, sent, consumed and lost, the hook's
   * reports, the positions in sent of what was consumed, and the evictions that no report will ever name.
   */
  datatype Queue<T> = Queue(
    cap: nat, producers: seq<Producer<T>>, chan: seq<T>, counter: nat,
    submitted: seq<T>, sent: seq<T>, head: nat, consumed: seq<T>, taken: seq<nat>,
    dropped: seq<T>, refused: seq<T>, reported: seq<T>, silent: seq<T>)

  datatype Action<T> = Begin(p: nat, item: T) | Advance(p: nat) | Consume

  function Start<T>(cap: nat, n: nat): Queue<T> {
    Queue(cap, seq(n, _ => Idle), [], 0, [], [], 0, [], [], [], [], [], [])
  }

  function At<T>(q: Queue<T>, p: nat, next: Producer<T>): Queue<T>
    requires p < |q.producers|
  {
    q.(producers := q.producers[p := next])
  }

  function Send<T>(q: Queue<T>, x: T): Queue<T> { q.(chan := q.chan + [x], sent := q.sent + [x]) }

  /** The next step of a producer in the middle of its call. */
  function Advanced<T>(q: Queue<T>, p: nat): Queue<T>
    requires p < |q.producers|
  {
    match q.producers[p]
    case Idle => q
    case Trying(x) => if |q.chan| < q.cap then At(Send(q, x), p, Idle) else At(q, p, Full(x))
    case Full(x) =>
      if q.chan == [] then At(q, p, Retrying(x, None))
      else
        At(q, p, CountingEviction(x, q.chan[0])).(chan := q.chan[1..], head := q.head + 1,
          dropped := q.dropped + [q.chan[0]])
    case CountingEviction(x, old') => At(q, p, Retrying(x, Some(old'))).(counter := q.counter + 1)
    case Retrying(x, before) =>
      if |q.chan| < q.cap then At(Send(q, x), p, if before.Some? then ReportingEviction(before.value) else Idle)
      else
        At(q, p, CountingRefusal(x)).(
          dropped := q.dropped + [x], refused := q.refused + [x],
          silent := if before.Some? then q.silent + [before.value] else q.silent)
    case ReportingEviction(y) => At(q, p, Idle).(reported := q.reported + [y])
    case CountingRefusal(x) => At(q, p, ReportingRefusal(x)).(counter := q.counter + 1)
    case ReportingRefusal(x) => At(q, p, Idle).(reported := q.reported + [x])
  }

  /** One atomic step. A step that is not possible leaves the state alone. */
  function Apply<T>(q: Queue<T>, a: Action<T>): Queue<T> {
    match a
    case Begin(p, x) =>
      if p < |q.producers| && q.producers[p].Idle? then At(q, p, Trying(x)).(submitted := q.submitted + [x]) else q
    case Advance(p) => if p < |q.producers| then Advanced(q, p) else q
    case Consume =>
      if q.chan == [] then q
      else q.(chan := q.chan[1..], head := q.head + 1, consumed := q.consumed + [q.chan[0]],
        taken := q.taken + [q.head])
  }

  /** The state after a run. */
  function After<T>(q: Queue<T>, run: seq<Action<T>>): Queue<T> {
    if run == [] then q else Apply(After(q, run[..|run| - 1]), run[|run| - 1])
  }

  // ------------------------------------------- what the producers hold between them

  ghost function Is<T>(y: T, x: T): nat { if y == x then 1 else 0 }

  /** How often x occurs in s. */
  ghost function Occ<T>(s: seq<T>, x: T): nat {
    if s == [] then 0 else Occ(s[..|s| - 1], x) + Is(s[|s| - 1], x)
  }

  lemma {:induction false} OccIsMultiplicity<T>(s: seq<T>, x: T)
    ensures Occ(s, x) == multiset(s)[x]
  {
    if s != [] {
      OccIsMultiplicity(s[..|s| - 1], x);
      assert s == s[..|s| - 1] + [s[|s| - 1]];
    }
  }

  lemma OccSnoc<T>(s: seq<T>, y: T, x: T)
    ensures Occ(s + [y], x) == Occ(s, x) + Is(y, x)
  {
    assert (s + [y])[..|s|] == s;
  }

  lemma {:induction false} OccFront<T>(s: seq<T>, x: T)
    requires s != []
    ensures Occ(s, x) == Is(s[0], x) + Occ(s[1..], x)
  {
    OccIsMultiplicity(s, x);
    OccIsMultiplicity(s[1..], x);
    assert s == [s[0]] + s[1..];
  }

  /** The producer has x in flight: submitted, but neither sent nor lost. */
  ghost function Flying<T>(t: Producer<T>, x: T): nat {
    match t
    case Trying(y) => Is(y, x)
    case Full(y) => Is(y, x)
    case CountingEviction(y, _) => Is(y, x)
    case Retrying(y, _) => Is(y, x)
    case _ => 0
  }

  /** The producer may still report the loss of x. */
  ghost function Owed<T>(t: Producer<T>, x: T): nat {
    match t
    case CountingEviction(_, y) => Is(y, x)
    case Retrying(_, before) => if before.Some? then Is(before.value, x) else 0
    case ReportingEviction(y) => Is(y, x)
    case CountingRefusal(y) => Is(y, x)
    case ReportingRefusal(y) => Is(y, x)
    case _ => 0
  }

  /** The producer has lost an item that it has yet to count. */
  ghost function Uncounted<T>(t: Producer<T>, u: ()): nat {
    if t.CountingEviction? || t.CountingRefusal? then 1 else 0
  }

  /** The producer has an item in flight. */
  ghost function Busy<T>(t: Producer<T>, u: ()): nat { |InHand(t)| }

  function InHand<T>(t: Producer<T>): seq<T> {
    if t.Trying? || t.Full? || t.CountingEviction? || t.Retrying? then [t.item] else []
  }

  ghost function Total<T, A>(f: (Producer<T>, A) -> nat, ts: seq<Producer<T>>, x: A): nat {
    if ts == [] then 0 else Total(f, ts[..|ts| - 1], x) + f(ts[|ts| - 1], x)
  }

  lemma {:induction false} TotalMoves<T, A>(
      f: (Producer<T>, A) -> nat, ts: seq<Producer<T>>, x: A, p: nat, t: Producer<T>)
    requires p < |ts|
    ensures Total(f, ts[p := t], x) == Total(f, ts, x) - f(ts[p], x) + f(t, x)
  {
    var n := |ts| - 1;
    if p == n {
      assert ts[p := t][..n] == ts[..n];
    } else {
      TotalMoves(f, ts[..n], x, p, t);
      assert ts[p := t][..n] == ts[..n][p := t];
    }
  }

  lemma {:induction false} TotalIdle<T, A>(f: (Producer<T>, A) -> nat, ts: seq<Producer<T>>, x: A)
    requires f(Idle, x) == 0 && forall i | 0 <= i < |ts| :: ts[i].Idle?
    ensures Total(f, ts, x) == 0
  {
    if ts != [] {
      TotalIdle(f, ts[..|ts| - 1], x);
    }
  }

  // -------------------------------------------------------- conservation

  /** Every submission of x is in flight, queued, consumed or lost. */
  ghost predicate Conserves<T>(q: Queue<T>, x: T) {
    Occ(q.submitted, x) == Total(Flying, q.producers, x) + Occ(q.chan, x) + Occ(q.consumed, x) + Occ(q.dropped, x)
  }

  /** Every lost item is counted, or about to be by the producer that lost it; and conservation, by numbers. */
  ghost predicate Counts<T>(q: Queue<T>) {
    && q.counter + Total(Uncounted, q.producers, ()) == |q.dropped|
    && |q.submitted| == Total(Busy, q.producers, ()) + |q.chan| + |q.consumed| + |q.dropped|
  }

  /** Every loss of x is reported, still owed to the hook, or an eviction whose producer was then refused. */
  ghost predicate Reports<T>(q: Queue<T>, x: T) {
    Occ(q.dropped, x) == Occ(q.reported, x) + Occ(q.silent, x) + Total(Owed, q.producers, x)
  }

  /** A producer's step changes no other producer. */
  lemma AdvanceIsLocal<T>(q: Queue<T>, p: nat)
    requires p < |q.producers|
    ensures var q' := Advanced(q, p);
      && |q'.producers| == |q.producers| && q'.producers == q.producers[p := q'.producers[p]]
      && q'.submitted == q.submitted && q'.consumed == q.consumed && q'.cap == q.cap
      && q.counter + Uncounted(q.producers[p], ()) + |q'.dropped| == q'.counter + Uncounted(q'.producers[p], ())
        + |q.dropped|
      && Busy(q.producers[p], ()) + |q.chan| + |q.dropped| == Busy(q'.producers[p], ()) + |q'.chan| + |q'.dropped|
  {
    if q.producers[p].Idle? {
      assert q.producers == q.producers[p := q.producers[p]];
    }
  }

  lemma EvictionMovesItems<T>(q: Queue<T>, p: nat, x: T)
    requires p < |q.producers| && q.producers[p].Full? && q.chan != []
    ensures var q' := Advanced(q, p);
      Occ(q'.chan, x) + Is(q.chan[0], x) == Occ(q.chan, x) && Occ(q'.dropped, x) == Occ(q.dropped, x) + Is(q.chan[0], x)
  {
    OccFront(q.chan, x);
    OccSnoc(q.dropped, q.chan[0], x);
  }

  lemma RetryMovesItems<T>(q: Queue<T>, p: nat, x: T)
    requires p < |q.producers| && q.producers[p].Retrying?
    ensures var q' := Advanced(q, p);
      Occ(q'.chan, x) + Occ(q'.dropped, x) == Occ(q.chan, x) + Occ(q.dropped, x) + Is(q.producers[p].item, x)
  {
    if |q.chan| < q.cap {
      OccSnoc(q.chan, q.producers[p].item, x);
    } else {
      OccSnoc(q.dropped, q.producers[p].item, x);
    }
  }

  /** It moves items between its hands, the channel and the lost. */
  lemma AdvanceMovesItems<T>(q: Queue<T>, p: nat, x: T)
    requires p < |q.producers|
    ensures var q' := Advanced(q, p);
      && |q'.producers| == |q.producers|
      && Flying(q.producers[p], x) + Occ(q.chan, x) + Occ(q.dropped, x)
         == Flying(q'.producers[p], x) + Occ(q'.chan, x) + Occ(q'.dropped, x)
  {
    match q.producers[p]
    case Trying(y) => OccSnoc(q.chan, y, x);
    case Full(y) =>
      if q.chan != [] {
        EvictionMovesItems(q, p, x);
      }
    case Retrying(y, _) => RetryMovesItems(q, p, x);
    case _ => assert Advanced(q, p).chan == q.chan && Advanced(q, p).dropped == q.dropped;
  }

  /** It moves losses from owed to reported, or to silent when the retry is refused. */
  lemma AdvanceMovesReports<T>(q: Queue<T>, p: nat, x: T)
    requires p < |q.producers|
    ensures var q' := Advanced(q, p);
      && |q'.producers| == |q.producers|
      && Occ(q'.dropped, x) + Occ(q.reported, x) + Occ(q.silent, x) + Owed(q.producers[p], x)
         == Occ(q.dropped, x) + Occ(q'.reported, x) + Occ(q'.silent, x) + Owed(q'.producers[p], x)
  {
    var q' := Advanced(q, p);
    match q.producers[p]
    case Full(_) =>
      if q.chan != [] {
        OccSnoc(q.dropped, q.chan[0], x);
        assert q'.dropped == q.dropped + [q.chan[0]] && q'.reported == q.reported && q'.silent == q.silent;
      }
    case Retrying(y, before) =>
      if |q.chan| >= q.cap {
        OccSnoc(q.dropped, y, x);
        assert q'.dropped == q.dropped + [y];
        if before.Some? {
          OccSnoc(q.silent, before.value, x);
        }
      }
    case ReportingEviction(y) => OccSnoc(q.reported, y, x);
    case ReportingRefusal(y) => OccSnoc(q.reported, y, x);
    case _ =>
  }

  /** What every step keeps. */
  ghost predicate Accounts<T>(q: Queue<T>, x: T) { Conserves(q, x) && Counts(q) && Reports(q, x) }

  lemma ConsumeAccounts<T>(q: Queue<T>, x: T)
    requires Accounts(q, x) && q.chan != []
    ensures Accounts(Apply(q, Consume), x)
  {
    OccFront(q.chan, x);
    OccSnoc(q.consumed, q.chan[0], x);
  }

  lemma BeginConserves<T>(q: Queue<T>, p: nat, y: T, x: T)
    requires Conserves(q, x) && p < |q.producers| && q.producers[p].Idle?
    ensures Conserves(Apply(q, Begin(p, y)), x)
  {
    TotalMoves(Flying, q.producers, x, p, Trying(y));
    OccSnoc(q.submitted, y, x);
  }

  lemma BeginCounts<T>(q: Queue<T>, p: nat, y: T)
    requires Counts(q) && p < |q.producers| && q.producers[p].Idle?
    ensures Counts(Apply(q, Begin(p, y)))
  {
    TotalMoves(Uncounted, q.producers, (), p, Trying(y));
    TotalMoves(Busy, q.producers, (), p, Trying(y));
  }

  lemma BeginReports<T>(q: Queue<T>, p: nat, y: T, x: T)
    requires Reports(q, x) && p < |q.producers| && q.producers[p].Idle?
    ensures Reports(Apply(q, Begin(p, y)), x)
  {
    TotalMoves(Owed, q.producers, x, p, Trying(y));
  }

  lemma BeginAccounts<T>(q: Queue<T>, p: nat, y: T, x: T)
    requires Accounts(q, x) && p < |q.producers| && q.producers[p].Idle?
    ensures Accounts(Apply(q, Begin(p, y)), x)
  {
    BeginConserves(q, p, y, x);
    BeginCounts(q, p, y);
    BeginReports(q, p, y, x);
  }

  lemma AdvanceConserves<T>(q: Queue<T>, p: nat, x: T)
    requires Conserves(q, x) && p < |q.producers|
    ensures Conserves(Advanced(q, p), x)
  {
    AdvanceIsLocal(q, p);
    AdvanceMovesItems(q, p, x);
    TotalMoves(Flying, q.producers, x, p, Advanced(q, p).producers[p]);
  }

  lemma AdvanceCounts<T>(q: Queue<T>, p: nat)
    requires Counts(q) && p < |q.producers|
    ensures Counts(Advanced(q, p))
  {
    AdvanceIsLocal(q, p);
    TotalMoves(Uncounted, q.producers, (), p, Advanced(q, p).producers[p]);
    TotalMoves(Busy, q.producers, (), p, Advanced(q, p).producers[p]);
  }

  lemma AdvanceReports<T>(q: Queue<T>, p: nat, x: T)
    requires Reports(q, x) && p < |q.producers|
    ensures Reports(Advanced(q, p), x)
  {
    AdvanceIsLocal(q, p);
    AdvanceMovesReports(q, p, x);
    TotalMoves(Owed, q.producers, x, p, Advanced(q, p).producers[p]);
  }

  lemma AdvanceAccounts<T>(q: Queue<T>, p: nat, x: T)
    requires Accounts(q, x) && p < |q.producers|
    ensures Accounts(Advanced(q, p), x)
  {
    AdvanceConserves(q, p, x);
    AdvanceCounts(q, p);
    AdvanceReports(q, p, x);
  }

  lemma ApplyAccounts<T>(q: Queue<T>, a: Action<T>, x: T)
    requires Accounts(q, x)
    ensures Accounts(Apply(q, a), x)
  {
    if Apply(q, a) != q {
      match a
      case Consume => ConsumeAccounts(q, x);
      case Begin(p, y) => BeginAccounts(q, p, y, x);
      case Advance(p) => AdvanceAccounts(q, p, x);
    }
  }

  lemma StartAccounts<T>(cap: nat, n: nat, x: T)
    ensures Accounts(Start(cap, n), x)
  {
    var ts := Start<T>(cap, n).producers;
    TotalIdle(Flying, ts, x);
    TotalIdle(Owed, ts, x);
    TotalIdle(Uncounted, ts, ());
    TotalIdle(Busy, ts, ());
  }

  /**
   * In every interleaving, each submission of each item is in exactly one place, the counter is short of the losses
   * only by those about to be counted, and the hook's reports are short of them only by what is owed or silent.
   */
  lemma {:induction false} NothingIsUnaccounted<T>(cap: nat, n: nat, run: seq<Action<T>>, x: T)
    ensures Accounts(After(Start(cap, n), run), x)
  {
    if run == [] {
      StartAccounts(cap, n, x);
    } else {
      var m := |run| - 1;
      NothingIsUnaccounted(cap, n, run[..m], x);
      ApplyAccounts(After(Start(cap, n), run[..m]), run[m], x);
    }
  }

  /** No producer is in the middle of a call. */
  predicate AtRest<T>(q: Queue<T>) { forall i | 0 <= i < |q.producers| :: q.producers[i].Idle? }

  lemma SizeFromOccurrences<T>(a: seq<T>, b: seq<T>, c: seq<T>)
    requires forall x :: Occ(a, x) == Occ(b, x) + Occ(c, x)
    ensures |a| == |b| + |c|
  {
    forall x: T
      ensures multiset(a)[x] == multiset(b)[x] + multiset(c)[x]
    {
      OccIsMultiplicity(a, x);
      OccIsMultiplicity(b, x);
      OccIsMultiplicity(c, x);
    }
    assert multiset(a) == multiset(b) + multiset(c);
    assert |multiset(a)| == |multiset(b)| + |multiset(c)|;
  }

  /** The branch that loses two items: a producer that has evicted one retries on a channel that is full again. */
  predicate RefusesAfterEviction<T>(q: Queue<T>, a: Action<T>) {
    && a.Advance? && a.p < |q.producers| && q.producers[a.p].Retrying? && q.producers[a.p].evictedBefore.Some?
    && |q.chan| >= q.cap
  }

  /** Step i of the run takes that branch. */
  ghost predicate RefusedAt<T>(q: Queue<T>, run: seq<Action<T>>, i: nat)
    requires i < |run|
  {
    RefusesAfterEviction(After(q, run[..i]), run[i])
  }

  /** No step of the run takes that branch. */
  ghost predicate NeverRefusedAfterEviction<T>(q: Queue<T>, run: seq<Action<T>>) {
    forall i | 0 <= i < |run| :: !RefusedAt(q, run, i)
  }

  lemma StepSilences<T>(q: Queue<T>, a: Action<T>)
    ensures Apply(q, a).silent == [] <==> q.silent == [] && !RefusesAfterEviction(q, a)
  {
  }

  lemma RefusedEarlier<T>(q: Queue<T>, run: seq<Action<T>>, i: nat)
    requires i < |run| - 1
    ensures RefusedAt(q, run[..|run| - 1], i) <==> RefusedAt(q, run, i)
  {
    assert run[..|run| - 1][..i] == run[..i];
  }

  lemma NeverRefusedGrows<T>(q: Queue<T>, run: seq<Action<T>>)
    requires run != []
    ensures var n := |run| - 1;
      NeverRefusedAfterEviction(q, run) <==> NeverRefusedAfterEviction(q, run[..n]) && !RefusedAt(q, run, n)
  {
    var n := |run| - 1;
    forall i | 0 <= i < n
      ensures RefusedAt(q, run[..n], i) <==> RefusedAt(q, run, i)
    {
      RefusedEarlier(q, run, i);
    }
  }

  /** An eviction goes unreported exactly in that branch. */
  lemma {:induction false} SilentExactlyWhenRefused<T>(q: Queue<T>, run: seq<Action<T>>)
    requires q.silent == []
    ensures After(q, run).silent == [] <==> NeverRefusedAfterEviction(q, run)
  {
    if run != [] {
      var n := |run| - 1;
      SilentExactlyWhenRefused(q, run[..n]);
      StepSilences(After(q, run[..n]), run[n]);
      NeverRefusedGrows(q, run);
    }
  }

  /**
   * Once all calls have returned, nothing is in flight, the counter is exactly the number of losses, and the hook has
   * reported as many of them if and only if no producer that had evicted an item found the channel full at its retry.
   */
  lemma CounterAndHookAtRest<T>(cap: nat, n: nat, run: seq<Action<T>>)
    requires AtRest(After(Start(cap, n), run))
    ensures var q := After(Start(cap, n), run);
      && (forall x :: Occ(q.submitted, x) == Occ(q.chan, x) + Occ(q.consumed, x) + Occ(q.dropped, x))
      && q.counter == |q.dropped| && |q.reported| <= q.counter
      && (q.counter == |q.reported| <==> NeverRefusedAfterEviction(Start(cap, n), run))
  {
    var q := After(Start(cap, n), run);
    forall x: T
      ensures Occ(q.submitted, x) == Occ(q.chan, x) + Occ(q.consumed, x) + Occ(q.dropped, x)
      ensures Occ(q.dropped, x) == Occ(q.reported, x) + Occ(q.silent, x)
    {
      AccountsAtRest(cap, n, run, x);
    }
    TotalIdle(Uncounted, q.producers, ());
    CountsAlways(cap, n, run);
    SizeFromOccurrences(q.dropped, q.reported, q.silent);
    SilentExactlyWhenRefused(Start(cap, n), run);
  }

  lemma AccountsAtRest<T>(cap: nat, n: nat, run: seq<Action<T>>, x: T)
    requires AtRest(After(Start(cap, n), run))
    ensures var q := After(Start(cap, n), run);
      && Occ(q.submitted, x) == Occ(q.chan, x) + Occ(q.consumed, x) + Occ(q.dropped, x)
      && Occ(q.dropped, x) == Occ(q.reported, x) + Occ(q.silent, x)
  {
    var q := After(Start(cap, n), run);
    NothingIsUnaccounted(cap, n, run, x);
    TotalIdle(Flying, q.producers, x);
    TotalIdle(Owed, q.producers, x);
  }

  lemma ApplyCounts<T>(q: Queue<T>, a: Action<T>)
    requires Counts(q)
    ensures Counts(Apply(q, a))
  {
    if Apply(q, a) != q {
      match a
      case Consume =>
      case Begin(p, y) => BeginCounts(q, p, y);
      case Advance(p) => AdvanceCounts(q, p);
    }
  }

  lemma {:induction false} CountsAlways<T>(cap: nat, n: nat, run: seq<Action<T>>)
    ensures Counts(After(Start(cap, n), run))
  {
    if run == [] {
      TotalIdle(Uncounted, Start<T>(cap, n).producers, ());
      TotalIdle(Busy, Start<T>(cap, n).producers, ());
    } else {
      var m := |run| - 1;
      CountsAlways(cap, n, run[..m]);
      ApplyCounts(After(Start(cap, n), run[..m]), run[m]);
    }
  }

  // ---------------------------------------------------------------- order

  /**
   * The channel is the unread end of what was sent, within its capacity, and what was consumed was sent at strictly
   * increasing positions.
   */
  ghost predicate InOrder<T>(q: Queue<T>) {
    && q.head <= |q.sent| && q.chan == q.sent[q.head..] && |q.chan| <= q.cap
    && |q.taken| == |q.consumed|
    && (forall i | 0 <= i < |q.taken| :: q.taken[i] < q.head && q.consumed[i] == q.sent[q.taken[i]])
    && (forall i, j | 0 <= i < j < |q.taken| :: q.taken[i] < q.taken[j])
  }

  lemma SendKeepsOrder<T>(q: Queue<T>, x: T)
    requires InOrder(q) && |q.chan| < q.cap
    ensures InOrder(Send(q, x))
  {
    assert (q.sent + [x])[q.head..] == q.sent[q.head..] + [x];
  }

  /** A producer's step sends, takes the oldest away, or leaves the channel alone. */
  lemma AdvanceKeepsOrder<T>(q: Queue<T>, p: nat)
    requires p < |q.producers| && InOrder(q)
    ensures InOrder(Advanced(q, p))
  {
    var t := q.producers[p];
    if (t.Trying? || t.Retrying?) && |q.chan| < q.cap {
      SendKeepsOrder(q, t.item);
    }
  }

  /** In every interleaving, consumption follows send order. */
  lemma {:induction false} ConsumedInSendOrder<T>(cap: nat, n: nat, run: seq<Action<T>>)
    ensures InOrder(After(Start(cap, n), run))
  {
    if run != [] {
      var m := |run| - 1;
      ConsumedInSendOrder(cap, n, run[..m]);
      if run[m].Advance? && run[m].p < |After(Start(cap, n), run[..m]).producers| {
        AdvanceKeepsOrder(After(Start(cap, n), run[..m]), run[m].p);
      }
    }
  }

  // ------------------------------------------------------- one producer

  /**
   * Everything submitted was sent, in that order, except what is in hand: room once made is still there at the retry.
   */
  ghost predicate Unrefused<T>(q: Queue<T>) {
    && |q.producers| == 1 && q.cap > 0 && q.refused == [] && q.silent == []
    && q.submitted == q.sent + InHand(q.producers[0])
    && !q.producers[0].CountingRefusal? && !q.producers[0].ReportingRefusal?
    && (q.producers[0].CountingEviction? || q.producers[0].Retrying? ==> |q.chan| < q.cap)
  }

  lemma AdvanceUnrefused<T>(q: Queue<T>)
    requires Unrefused(q) && |q.chan| <= q.cap
    ensures Unrefused(Advanced(q, 0))
  {
    var t := q.producers[0];
    if InHand(t) != [] && Advanced(q, 0).sent != q.sent {
      assert q.submitted == q.sent + [t.item];
    }
  }

  /** With a single producer no new item is ever refused, in any interleaving with the consumer. */
  lemma {:induction false} SingleProducerNeverRefused<T>(cap: nat, run: seq<Action<T>>)
    requires cap > 0
    ensures Unrefused(After(Start(cap, 1), run))
  {
    if run != [] {
      var m := |run| - 1;
      SingleProducerNeverRefused(cap, run[..m]);
      ConsumedInSendOrder(cap, 1, run[..m]);
      if run[m].Advance? && run[m].p == 0 {
        AdvanceUnrefused(After(Start(cap, 1), run[..m]));
      }
    }
  }

  lemma OneMore<T>(q: Queue<T>, run: seq<Action<T>>, a: Action<T>) returns (longer: seq<Action<T>>)
    ensures longer == run + [a] && After(q, longer) == Apply(After(q, run), a)
  {
    longer := run + [a];
    assert longer[..|run|] == run;
  }

  /** k steps of a producer in a row. */
  function Steps<T>(q: Queue<T>, p: nat, k: nat): Queue<T> {
    if k == 0 then q else Apply(Steps(q, p, k - 1), Advance(p))
  }

  lemma {:induction false} Onward<T>(q: Queue<T>, run: seq<Action<T>>, p: nat, k: nat) returns (longer: seq<Action<T>>)
    ensures After(q, longer) == Steps(After(q, run), p, k)
  {
    longer := run;
    if k > 0 {
      longer := Onward(q, run, p, k - 1);
      longer := OneMore(q, longer, Advance(p));
    }
  }
  // ------------------------------------------------- an undisturbed call

  /** A producer that finds room sends at once. */
  lemma SendsAtOnce<T>(q: Queue<T>, p: nat, x: T)
    requires p < |q.producers| && q.producers[p].Idle? && |q.chan| < q.cap
    ensures Steps(Apply(q, Begin(p, x)), p, 1) == Send(q, x).(submitted := q.submitted + [x])
  {
    var q1 := Apply(q, Begin(p, x));
    assert Steps(q1, p, 1) == Advanced(q1, p);
    assert Advanced(q1, p).producers == q.producers;
  }

  /** A producer that finds the channel full evicts the oldest, counts it, and is about to retry. */
  lemma EvictsOldest<T>(q: Queue<T>, p: nat, x: T)
    requires p < |q.producers| && q.producers[p].Idle? && |q.chan| >= q.cap && q.chan != []
    ensures Steps(Apply(q, Begin(p, x)), p, 3) == At(q, p, Retrying(x, Some(q.chan[0]))).(
      submitted := q.submitted + [x], chan := q.chan[1..], head := q.head + 1, dropped := q.dropped + [q.chan[0]],
        counter := q.counter + 1)
  {
    var q0 := Apply(q, Begin(p, x));
    var q1 := Advanced(q0, p);
    assert Steps(q0, p, 1) == q1 && q1.producers == q.producers[p := Full(x)];
    var q2 := Advanced(q1, p);
    assert Steps(q0, p, 2) == q2 && q2.producers == q.producers[p := CountingEviction(x, q.chan[0])];
    var q3 := Advanced(q2, p);
    assert Steps(q0, p, 3) == q3 && q3.producers == q.producers[p := Retrying(x, Some(q.chan[0]))];
  }

  /** Its retry goes through if there is room, and reports the eviction. */
  lemma RetrySucceeds<T>(q: Queue<T>, p: nat, x: T, y: T)
    requires p < |q.producers| && q.producers[p] == Retrying(x, Some(y)) && |q.chan| < q.cap
    ensures Steps(q, p, 2) == At(Send(q, x), p, Idle).(reported := q.reported + [y])
  {
    var q1 := Advanced(q, p);
    assert Steps(q, p, 1) == q1 && q1.producers == q.producers[p := ReportingEviction(y)];
    assert Advanced(q1, p).producers == q.producers[p := Idle];
  }

  /** If another producer took the room, the new item is lost too, and only that loss is reported. */
  lemma RetryRefused<T>(q: Queue<T>, p: nat, x: T, y: T)
    requires p < |q.producers| && q.producers[p] == Retrying(x, Some(y)) && |q.chan| >= q.cap
    ensures Steps(q, p, 3) == At(q, p, Idle).(
      dropped := q.dropped + [x], refused := q.refused + [x], silent := q.silent + [y], counter := q.counter + 1,
        reported := q.reported + [x])
  {
    var q1 := Advanced(q, p);
    assert Steps(q, p, 1) == q1 && q1.producers == q.producers[p := CountingRefusal(x)];
    var q2 := Advanced(q1, p);
    assert Steps(q, p, 2) == q2 && q2.producers == q.producers[p := ReportingRefusal(x)];
    assert Advanced(q2, p).producers == q.producers[p := Idle];
  }

  /** Two producers can lose two items and have the hook told of one. */
  lemma HookMissesALoss() returns (run: seq<Action<int>>)
    ensures var q := After(Start(1, 2), run);
      AtRest(q) && q.counter == 2 && q.dropped == [1, 2] && q.reported == [2] && q.chan == [3]
  {
    var q: Queue<int> := Start(1, 2);
    run := OneMore(q, [], Begin(0, 1));
    run := Onward(q, run, 0, 1);
    SendsAtOnce(q, 0, 1);
    var q1 := q.(chan := [1], submitted := [1], sent := [1]);
    assert After(q, run) == q1;
    run := RivalTakesTheRoom(q, run, q1);
  }

  /** From a full channel: producer 0 evicts, producer 1 sends, producer 0 is refused. */
  lemma RivalTakesTheRoom(q: Queue<int>, run: seq<Action<int>>, q1: Queue<int>) returns (longer: seq<Action<int>>)
    requires After(q, run) == q1 && q1.producers == [Idle, Idle] && q1.cap == 1 && q1.chan == [1]
    requires q1.counter == 0 && q1.dropped == [] && q1.reported == []
    ensures var q := After(q, longer);
      AtRest(q) && q.counter == 2 && q.dropped == [1, 2] && q.reported == [2] && q.chan == [3]
  {
    longer := OneMore(q, run, Begin(0, 2));
    longer := Onward(q, longer, 0, 3);
    EvictsOldest(q1, 0, 2);
    var q2 := After(q, longer);
    longer := OneMore(q, longer, Begin(1, 3));
    longer := Onward(q, longer, 1, 1);
    SendsAtOnce(q2, 1, 3);
    var q3 := After(q, longer);
    longer := Onward(q, longer, 0, 3);
    RetryRefused(q3, 0, 2, 1);
  }

  /** What one call does when nothing interleaves: the oldest makes room, and the new item is queued. */
  function Enqueued<T>(chan: seq<T>, cap: nat, x: T): seq<T> {
    (if |chan| < cap || chan == [] then chan else chan[1..]) + [x]
  }

  /**
   * The protocol, run alone from any state, refines that: the item gets in, and one loss is counted and reported if
   * full.
   */
  lemma AloneIsDropOldest<T>(q: Queue<T>, p: nat, x: T)
    requires p < |q.producers| && q.producers[p].Idle? && 0 < q.cap && |q.chan| <= q.cap
    ensures var full := |q.chan| == q.cap;
      var q' := Steps(Steps(Apply(q, Begin(p, x)), p, if full then 3 else 1), p, if full then 2 else 0);
      var lost := if full then [q.chan[0]] else [];
      && q'.producers == q.producers && q'.chan == Enqueued(q.chan, q.cap, x) && |q'.chan| <= q.cap
      && q'.dropped == q.dropped + lost && q'.counter == q.counter + |lost| && q'.reported == q.reported + lost
      && q'.refused == q.refused && q'.silent == q.silent
  {
    var q0 := Apply(q, Begin(p, x));
    if |q.chan| < q.cap {
      SendsAtOnce(q, p, x);
    } else {
      EvictsOldest(q, p, x);
      RetrySucceeds(Steps(q0, p, 3), p, x, q.chan[0]);
      assert q.producers[p := Retrying(x, Some(q.chan[0]))][p := Idle] == q.producers;
    }
  }

  // -------------------------------------------------- a call with company

  /**
   * What everyone else does to the channel: before a call, between its first attempt and the eviction, and between the
   * eviction and the second attempt.
   */
  datatype Others<!T> = Others(before: seq<T> -> seq<T>, first: seq<T> -> seq<T>, second: seq<T> -> seq<T>)

  /** They respect the channel's capacity. */
  ghost predicate Respects<T(!new)>(o: Others<T>, cap: nat) {
    forall s: seq<T> | |s| <= cap :: |o.before(s)| <= cap && |o.first(s)| <= cap && |o.second(s)| <= cap
  }

  /** They leave the channel alone during the call. */
  ghost predicate StandBy<T(!new)>(o: Others<T>) { forall s: seq<T> :: o.first(s) == s && o.second(s) == s }

  /** What one call comes to: the channel, whether the item got in, how many losses it counts and what it reports. */
  datatype Attempt<T> = Attempt(chan: seq<T>, ok: bool, lost: nat, told: seq<T>)

  function Attempted<T>(chan: seq<T>, cap: nat, x: T, o: Others<T>): Attempt<T> {
    if |chan| < cap then Attempt(chan + [x], true, 0, [])
    else
      var found := o.first(chan);
      var evicted := if found == [] then [] else [found[0]];
      var rest := o.second(if found == [] then found else found[1..]);
      if |rest| < cap then Attempt(rest + [x], true, |evicted|, evicted) else Attempt(rest, false, |evicted| + 1, [x])
  }

  /** With nobody else about, that is drop-oldest. */
  lemma AttemptAlone<T(!new)>(chan: seq<T>, cap: nat, x: T, o: Others<T>)
    requires 0 < cap && |chan| <= cap && StandBy(o)
    ensures var lost := if |chan| == cap then [chan[0]] else [];
      Attempted(chan, cap, x, o) == Attempt(Enqueued(chan, cap, x), true, |lost|, lost)
  {
  }

  /** An attempt is refused exactly when the channel is full at both sends. */
  lemma RefusedExactlyWhenFullTwice<T>(chan: seq<T>, cap: nat, x: T, o: Others<T>)
    ensures var found := o.first(chan);
      !Attempted(chan, cap, x, o).ok <==> |chan| >= cap && |o.second(if found == [] then found else found[1..])| >= cap
  {
  }

  /** The actions of everyone but producer p. */
  ghost predicate NotBy<T>(run: seq<Action<T>>, p: nat) {
    forall i | 0 <= i < |run| :: run[i].Consume? || run[i].p != p
  }

  lemma {:induction false} OthersLeaveProducer<T>(q: Queue<T>, run: seq<Action<T>>, p: nat)
    requires p < |q.producers| && NotBy(run, p)
    ensures var q' := After(q, run);
      |q'.producers| == |q.producers| && q'.producers[p] == q.producers[p] && q'.cap == q.cap
  {
    if run != [] {
      var n := |run| - 1;
      OthersLeaveProducer(q, run[..n], p);
      assert run[n].Consume? || run[n].p != p;
      OtherLeavesProducer(After(q, run[..n]), run[n], p);
    }
  }

  lemma OtherLeavesProducer<T>(q: Queue<T>, a: Action<T>, p: nat)
    requires p < |q.producers| && (a.Consume? || a.p != p)
    ensures var q' := Apply(q, a);
      |q'.producers| == |q.producers| && q'.producers[p] == q.producers[p] && q'.cap == q.cap
  {
    if a.Advance? && a.p < |q.producers| {
      AdvanceIsLocal(q, a.p);
    }
  }

  /**
   * In the interleaving model a call is such an attempt: whatever the others do at its two gaps, what the call does to
   * the channel, whether it is refused, what it adds to the counter and what it reports are what Attempted says of the
   * channel as the others left it.
   */
  lemma CallIsAttempt<T>(
      q: Queue<T>, p: nat, x: T, first: seq<Action<T>>, second: seq<Action<T>>, q1: Queue<T>, q2: Queue<T>,
      q3: Queue<T>, q4: Queue<T>)
    requires p < |q.producers| && q.producers[p] == Full(x) && |q.chan| >= q.cap && NotBy(first, p) && NotBy(second, p)
    requires q1 == After(q, first) && q2 == Evicted(q1, p) && q3 == After(q2, second) && q4 == Finished(q3, p)
    ensures p < |q4.producers| && q4.producers[p].Idle?
    ensures var a := Attempted(q.chan, q.cap, x, Others(_ => q.chan, _ => q1.chan, _ => q3.chan));
      && q4.chan == a.chan && (a.ok <==> q4.refused == q3.refused)
      && a.lost == (q2.counter - q1.counter) + (q4.counter - q3.counter)
      && q2.reported == q1.reported && q4.reported == q3.reported + a.told
  {
    OthersLeaveProducer(q, first, p);
    EvictedRetries(q1, p, x);
    OthersLeaveProducer(q2, second, p);
    FinishedReports(q3, p, x);
  }

  /** The producer makes its second attempt, counts a refusal, and reports. */
  function Finished<T>(q: Queue<T>, p: nat): Queue<T> { Steps(q, p, if |q.chan| >= q.cap then 3 else 2) }

  lemma FinishedReports<T>(q: Queue<T>, p: nat, x: T)
    requires p < |q.producers| && q.producers[p].Retrying? && q.producers[p].item == x
    ensures var q', before := Finished(q, p), q.producers[p].evictedBefore;
      && |q'.producers| == |q.producers| && q'.producers[p].Idle?
      && (if |q.chan| >= q.cap then
            && q'.chan == q.chan && q'.refused == q.refused + [x] && q'.counter == q.counter + 1
            && q'.reported == q.reported + [x]
          else
            && q'.chan == q.chan + [x] && q'.refused == q.refused && q'.counter == q.counter
            && q'.reported == q.reported + (if before.Some? then [before.value] else []))
  {
    var q1 := Advanced(q, p);
    assert Steps(q, p, 1) == q1;
    var q2 := Advanced(q1, p);
    assert Steps(q, p, 2) == q2;
    if |q.chan| >= q.cap {
      assert q1.producers == q.producers[p := CountingRefusal(x)];
      assert q2.producers == q.producers[p := ReportingRefusal(x)];
      assert Steps(q, p, 3) == Advanced(q2, p);
    }
  }

  /** The producer takes the oldest, if there is one, and counts it. */
  function Evicted<T>(q: Queue<T>, p: nat): Queue<T> { Steps(q, p, if q.chan == [] then 1 else 2) }

  lemma EvictedRetries<T>(q: Queue<T>, p: nat, x: T)
    requires p < |q.producers| && q.producers[p] == Full(x)
    ensures var q', evicted := Evicted(q, p), if q.chan == [] then None else Some(q.chan[0]);
      && |q'.producers| == |q.producers| && q'.producers[p] == Retrying(x, evicted) && q'.cap == q.cap
      && q'.chan == (if q.chan == [] then [] else q.chan[1..]) && q'.reported == q.reported
      && q'.counter == q.counter + if evicted.Some? then 1 else 0
  {
    var q1 := Advanced(q, p);
    assert Steps(q, p, 1) == q1;
    if q.chan != [] {
      assert q1.producers == q.producers[p := CountingEviction(x, q.chan[0])];
      assert Steps(q, p, 2) == Advanced(q1, p);
    }
  }
}
