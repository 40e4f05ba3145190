/**
 * The batch bookkeeping around the resolution engine: the worker-count clamp,
 * the task queue (`enqueue_tasks`, the `task_done` callback, stop and restart),
 * the search button and the interval tick of `update_table`, which shows the
 * progress, numbers the rows and, once the batch is over, finalises the income
 * estimates. Threads are not modelled: each submission, start, completion,
 * stop, restart and tick is one atomic step on the module-level state, which
 * is the `Engine` class below.
 */
module Orchestrator {
  import opened Wrappers
  import opened Records
  import opened Scoring
  import opened Providers
  import opened Retry
  import opened Income

  // ------------------------------------------------------------ worker count

  /** `max_threads = min(8, max(4, int(cpus * 0.75)))`: the pool has between
      four and eight workers: four up to six CPUs, eight from eleven CPUs on,
      three quarters of the CPUs (rounded down) between. */
  function MaxThreads(cpus: nat): (n: nat)
    ensures 4 <= n <= 8
    ensures n == 4 <==> cpus <= 6
    ensures n == 8 <==> cpus >= 11
    ensures 4 <= cpus * 3 / 4 <= 8 ==> n == cpus * 3 / 4
  {
    var wanted := cpus * 3 / 4;
    if wanted < 4 then 4 else if wanted > 8 then 8 else wanted
  }

  /** More CPUs never mean fewer workers. */
  lemma MaxThreadsMonotone(a: nat, b: nat)
    requires a <= b
    ensures MaxThreads(a) <= MaxThreads(b)
  {
    assert a * 3 <= b * 3;
  }

  // ------------------------------------------------------------- progress

  /** `int(len(completed_results) / total_tasks * 100)`, in exact arithmetic;
      `None` is the division by zero of an empty batch. */
  function PercentComplete(done: nat, total: nat): (r: Option<nat>)
    ensures r.None? <==> total == 0
    ensures r.Some? ==> r.value * total <= done * 100 < (r.value + 1) * total
  {
    if total == 0 then None else Some(done * 100 / total)
  }

  /** While no more rows than tasks have arrived the bar stays within 0..100,
      and it reads 100 exactly when every task has reported. */
  lemma PercentBounds(done: nat, total: nat)
    requires total > 0 && done <= total
    ensures var p := PercentComplete(done, total).value;
      && p <= 100
      && (p == 100 <==> done == total)
  {
    DivExact(100, total);
    DivMonotone(done * 100, 100 * total, total);
    if done < total {
      DivBelow(done * 100, total, 100);
    }
  }

  /** The bar never moves back as rows arrive. */
  lemma PercentMonotone(d1: nat, d2: nat, total: nat)
    requires total > 0 && d1 <= d2
    ensures PercentComplete(d1, total).value <= PercentComplete(d2, total).value
  {
    DivMonotone(d1 * 100, d2 * 100, total);
  }

  // Helpers for integer division.

  lemma MulLe(x: int, y: int, t: nat)
    requires x <= y
    ensures x * t <= y * t
  {
    assert y * t - x * t == (y - x) * t;
  }

  lemma DivMonotone(a: nat, b: nat, t: nat)
    requires a <= b && t > 0
    ensures a / t <= b / t
  {
    var qa, qb := a / t, b / t;
    assert a == qa * t + a % t;
    assert b == qb * t + b % t;
    if qa > qb {
      MulLe(qb + 1, qa, t);
    }
  }

  lemma DivBelow(a: nat, t: nat, c: nat)
    requires t > 0 && a < c * t
    ensures a / t < c
  {
    var q := a / t;
    assert a == q * t + a % t;
    if q >= c {
      MulLe(c, q, t);
    }
  }

  lemma DivExact(c: nat, t: nat)
    requires t > 0
    ensures (c * t) / t == c
  {
    var q := (c * t) / t;
    assert c * t == q * t + (c * t) % t;
    if q < c {
      MulLe(q + 1, c, t);
    }
    if q > c {
      MulLe(c + 1, q, t);
    }
  }

  // ------------------------------------------------------------ numbering

  /** One row as the table shows it: numbered from 1, and, in the final table,
      "No Match" when it has no status yet. */
  function Number(r: Row, i: nat, final: bool): Row
  {
    r.(no := Some(i + 1), status := if final && r.status.None? then Some(NoMatch) else r.status)
  }

  /** `for i, r in enumerate(rows): r["No."] = i + 1; ...`. */
  function Numbered(rows: seq<Row>, final: bool): seq<Row>
  {
    seq(|rows|, i requires 0 <= i < |rows| => Number(rows[i], i, final))
  }

  /** Numbering keeps the rows and their order, gives row `i` the number `i + 1`,
      changes no other column than the number and (in the final table) a
      missing status, and gives every row of the final table a status. */
  lemma NumberedSpec(rows: seq<Row>, final: bool)
    ensures var out := Numbered(rows, final);
      && |out| == |rows|
      && (forall i :: 0 <= i < |rows| ==> out[i].no == Some(i + 1))
      && (forall i :: 0 <= i < |rows| ==> out[i].(no := rows[i].no, status := rows[i].status) == rows[i])
      && (forall i :: 0 <= i < |rows| && rows[i].status.Some? ==> out[i].status == rows[i].status)
      && (final ==> forall i :: 0 <= i < |rows| ==> out[i].status.Some?)
      && (!final ==> forall i :: 0 <= i < |rows| ==> out[i].status == rows[i].status)
  {
  }

  /** Numbering again changes nothing, and the final numbering of a table
      already numbered during the run is its final numbering. */
  lemma NumberedIdempotent(rows: seq<Row>, final: bool)
    ensures Numbered(Numbered(rows, final), final) == Numbered(rows, final)
    ensures Numbered(Numbered(rows, false), true) == Numbered(rows, true)
  {
  }

  /** The numbering loop, on the rows it is given. */
  method NumberRows(rows: seq<Row>, final: bool) returns (out: seq<Row>)
    ensures out == Numbered(rows, final)
  {
    out := [];
    var i := 0;
    while i < |rows|
      invariant 0 <= i <= |rows|
      invariant out == Numbered(rows[..i], final)
    {
      out := out + [Number(rows[i], i, final)];
      i := i + 1;
    }
    assert rows[..i] == rows;
  }

  // ---------------------------------------------------------------- tasks

  /** A future's life in the executor: queued, running, finished, or cancelled
      before it started (`cancel()` has no effect on a running future). */
  datatype FutureState = Queued | Running | Finished | Cancelled

  /** One submitted `search_person(person, cos_th, fuzz_th, key)` call. */
  datatype Future = Future(person: Person, cosTh: real, fuzzTh: real, apiKey: string, state: FutureState)

  /** `future.done()`. */
  predicate Settled(f: Future)
  {
    f.state == Finished || f.state == Cancelled
  }

  /** How many of `fs` have not settled yet. */
  function Unsettled(fs: seq<Future>): nat
  {
    if fs == [] then 0 else (if Settled(fs[0]) then 0 else 1) + Unsettled(fs[1..])
  }

  lemma {:induction false} UnsettledAppend(a: seq<Future>, b: seq<Future>)
    ensures Unsettled(a + b) == Unsettled(a) + Unsettled(b)
  {
    if a == [] {
      assert a + b == b;
    } else {
      assert (a + b)[1..] == a[1..] + b;
      UnsettledAppend(a[1..], b);
    }
  }

  /** Replacing one future changes the count by what that future contributes. */
  lemma {:induction false} UnsettledUpdate(fs: seq<Future>, k: nat, f: Future)
    requires k < |fs|
    ensures Unsettled(fs[k := f]) + (if Settled(fs[k]) then 0 else 1)
         == Unsettled(fs) + (if Settled(f) then 0 else 1)
  {
    if k > 0 {
      assert fs[k := f][1..] == fs[1..][k - 1 := f];
      UnsettledUpdate(fs[1..], k - 1, f);
    }
  }

  /** What `fut.result()` gave the callback: the task's return value, or an
      exception (a cancelled future raises `CancelledError`, an `Exception`). */
  datatype Outcome = Returned(value: Option<Row>) | Raised

  /** The row `task_done` appends for an outcome: the task's own row when it
      returned one, the "Not Found" sentinel when it returned nothing and the
      "Error" sentinel when it raised; sentinels have no profile link. */
  function CompletionRow(o: Outcome): (r: Row)
    ensures o.Returned? && o.value.Some? ==> r == o.value.value
    ensures o == Returned(None) ==> r.title == NotFound && r.url == ""
    ensures o.Raised? ==> r.title == ErrorTitle && r.url == ""
  {
    match o
    case Returned(Some(r)) => r
    case Returned(None) => SentinelRow(NotFound)
    case Raised => SentinelRow(ErrorTitle)
  }

  /** `n` "Error" rows. */
  function ErrorRows(n: nat): seq<Row>
  {
    seq(n, _ => SentinelRow(ErrorTitle))
  }

  /** The futures after a stop: every queued future from `from` on is cancelled. */
  function CancelFrom(fs: seq<Future>, from: nat): seq<Future>
  {
    seq(|fs|, i requires 0 <= i < |fs| =>
      if i >= from && fs[i].state == Queued then fs[i].(state := Cancelled) else fs[i])
  }

  /** After a stop no future from `from` on is still queued; the others, and
      every future's task, are as they were. */
  lemma CancelFromSpec(fs: seq<Future>, from: nat)
    ensures |CancelFrom(fs, from)| == |fs|
    ensures forall k :: from <= k < |fs| ==> CancelFrom(fs, from)[k].state != Queued
    ensures forall k :: 0 <= k < |fs| ==>
      && CancelFrom(fs, from)[k].(state := fs[k].state) == fs[k]
      && (k < from || fs[k].state != Queued ==> CancelFrom(fs, from)[k] == fs[k])
  {
  }

  /** How many of `fs` are queued. */
  function QueuedCount(fs: seq<Future>): nat
  {
    if fs == [] then 0 else (if fs[|fs| - 1].state == Queued then 1 else 0) + QueuedCount(fs[..|fs| - 1])
  }

  lemma CancelFromStep(fs: seq<Future>, from: nat, i: nat)
    requires i < |fs|
    ensures CancelFrom(fs[..i + 1], from) + fs[i + 1..]
         == (CancelFrom(fs[..i], from) + fs[i..])[i := if i >= from && fs[i].state == Queued
                                                   then fs[i].(state := Cancelled) else fs[i]]
  {
  }

  lemma QueuedCountStep(fs: seq<Future>, from: nat, i: nat)
    requires from <= i < |fs|
    ensures QueuedCount(fs[from..i + 1]) == QueuedCount(fs[from..i]) + (if fs[i].state == Queued then 1 else 0)
  {
    assert fs[from..i + 1][..i - from] == fs[from..i];
  }

  lemma ErrorRowsStep(n: nat)
    ensures ErrorRows(n + 1) == ErrorRows(n) + [SentinelRow(ErrorTitle)]
  {
  }

  /** The futures `enqueue_tasks` submits, one per person, all queued. */
  function Submitted(people: seq<Person>, cosTh: real, fuzzTh: real, apiKey: string): seq<Future>
  {
    seq(|people|, i requires 0 <= i < |people| => Future(people[i], cosTh, fuzzTh, apiKey, Queued))
  }

  lemma {:induction false} SubmittedUnsettled(people: seq<Person>, cosTh: real, fuzzTh: real, apiKey: string)
    ensures Unsettled(Submitted(people, cosTh, fuzzTh, apiKey)) == |people|
  {
    if people != [] {
      var s := Submitted(people, cosTh, fuzzTh, apiKey);
      assert s[1..] == Submitted(people[1..], cosTh, fuzzTh, apiKey);
      SubmittedUnsettled(people[1..], cosTh, fuzzTh, apiKey);
    }
  }

  /** The module-level state of the program: `completed_results`,
      `total_tasks`, `scraping_active`, the futures the executor holds (the
      ones from `pendingFrom` on are `pending_tasks`), `retry_attempts`,
      `final_table_ready`, `finalized_table_data`, and whether the interval
      timer is disabled. */
  class Engine {
    var completedResults: seq<Row>
    var totalTasks: nat
    var scrapingActive: bool
    var futures: seq<Future>
    var pendingFrom: nat
    var retryAttempts: map<string, nat>
    var finalTableReady: bool
    var finalizedTableData: seq<Row>
    var intervalDisabled: bool

    /** `pending_tasks` is a suffix of the futures the executor holds. */
    ghost predicate Valid()
      reads this
    {
      pendingFrom <= |futures|
    }

    /** Every row in `completed_results` belongs to the current batch: the
        futures before `pending_tasks` have all settled, and the rows that have
        arrived plus the pending futures still to settle make up the batch. */
    ghost predicate Accounted()
      reads this
    {
      && Valid()
      && (forall k :: 0 <= k < pendingFrom ==> Settled(futures[k]))
      && |completedResults| + Unsettled(futures[pendingFrom..]) == totalTasks
    }

    /** No future is queued or running. */
    ghost predicate Idle()
      reads this
    {
      forall k :: 0 <= k < |futures| ==> Settled(futures[k])
    }

    /** The state at start-up. */
    constructor ()
      ensures Valid() && Accounted() && Idle()
      ensures completedResults == [] && totalTasks == 0 && !scrapingActive && futures == []
      ensures retryAttempts == map[] && !finalTableReady && finalizedTableData == [] && !intervalDisabled
    {
      completedResults := [];
      totalTasks := 0;
      scrapingActive := false;
      futures := [];
      pendingFrom := 0;
      retryAttempts := map[];
      finalTableReady := false;
      finalizedTableData := [];
      intervalDisabled := false;
    }

    /** `task_done(fut)`, run under the lock: appends exactly one row and ends
        the run when the number of rows reaches the number of tasks. */
    method TaskDone(o: Outcome)
      modifies this`completedResults, this`scrapingActive
      ensures completedResults == old(completedResults) + [CompletionRow(o)]
      ensures scrapingActive == (old(scrapingActive) && |completedResults| != totalTasks)
    {
      completedResults := completedResults + [CompletionRow(o)];
      if |completedResults| == totalTasks {
        scrapingActive := false;
      }
    }

    /** `enqueue_tasks(people, cos_th, fuzz_th, key)`: a fresh batch of one
        queued future per person. */
    method Enqueue(people: seq<Person>, cosTh: real, fuzzTh: real, apiKey: string)
      requires Valid()
      modifies this`scrapingActive, this`futures, this`pendingFrom, this`completedResults, this`totalTasks
      ensures Valid()
      ensures scrapingActive && completedResults == [] && totalTasks == |people|
      ensures futures == old(futures) + Submitted(people, cosTh, fuzzTh, apiKey)
      ensures pendingFrom == |old(futures)|
      ensures Accounted() <==> old(Idle())
    {
      scrapingActive := true;
      pendingFrom := |futures|;
      completedResults := [];
      totalTasks := |people|;
      var i := 0;
      while i < |people|
        invariant 0 <= i <= |people|
        invariant futures == old(futures) + Submitted(people[..i], cosTh, fuzzTh, apiKey)
        invariant pendingFrom == |old(futures)|
        invariant scrapingActive && completedResults == [] && totalTasks == |people|
      {
        assert Submitted(people[..i + 1], cosTh, fuzzTh, apiKey)
            == Submitted(people[..i], cosTh, fuzzTh, apiKey) + [Future(people[i], cosTh, fuzzTh, apiKey, Queued)];
        futures := futures + [Future(people[i], cosTh, fuzzTh, apiKey, Queued)];
        i := i + 1;
      }
      assert people[..i] == people;
      assert futures[pendingFrom..] == Submitted(people, cosTh, fuzzTh, apiKey);
      SubmittedUnsettled(people, cosTh, fuzzTh, apiKey);
    }

    /** A worker picks up a queued future. */
    method StartTask(k: nat)
      requires Valid() && k < |futures| && futures[k].state == Queued
      modifies this`futures
      ensures Valid()
      ensures futures == old(futures)[k := old(futures)[k].(state := Running)]
      ensures old(Accounted()) ==> Accounted()
    {
      futures := futures[k := futures[k].(state := Running)];
      if k >= pendingFrom {
        assert futures[pendingFrom..] == old(futures)[pendingFrom..][k - pendingFrom := futures[k]];
        UnsettledUpdate(old(futures)[pendingFrom..], k - pendingFrom, futures[k]);
      } else {
        assert futures[pendingFrom..] == old(futures)[pendingFrom..];
      }
    }

    /** A running future finishes, with the value `search_person` returned or
        with an exception it raised, and its callback runs. */
    method FinishTask(k: nat, o: Outcome)
      requires Valid() && k < |futures| && futures[k].state == Running
      modifies this`futures, this`completedResults, this`scrapingActive
      ensures Valid()
      ensures futures == old(futures)[k := old(futures)[k].(state := Finished)]
      ensures completedResults == old(completedResults) + [CompletionRow(o)]
      ensures scrapingActive == (old(scrapingActive) && |completedResults| != totalTasks)
      ensures old(Accounted()) ==> Accounted()
    {
      futures := futures[k := futures[k].(state := Finished)];
      if k >= pendingFrom {
        assert futures[pendingFrom..] == old(futures)[pendingFrom..][k - pendingFrom := futures[k]];
        UnsettledUpdate(old(futures)[pendingFrom..], k - pendingFrom, futures[k]);
      }
      TaskDone(o);
    }
  
    /** `task.cancel()` on a pending future: a queued future is cancelled and
        its callback runs at once with the `CancelledError`; a running or
        settled future is left alone. */
    method Cancel(k: nat)
      requires Valid() && pendingFrom <= k < |futures|
      modifies this`futures, this`completedResults, this`scrapingActive
      ensures Valid()
      ensures old(futures)[k].state == Queued ==>
        && futures == old(futures)[k := old(futures)[k].(state := Cancelled)]
        && completedResults == old(completedResults) + [SentinelRow(ErrorTitle)]
        && scrapingActive == (old(scrapingActive) && |completedResults| != totalTasks)
      ensures old(futures)[k].state != Queued ==>
        futures == old(futures) && completedResults == old(completedResults) && scrapingActive == old(scrapingActive)
      ensures old(Accounted()) ==> Accounted()
    {
      if futures[k].state == Queued {
        futures := futures[k := futures[k].(state := Cancelled)];
        assert futures[pendingFrom..] == old(futures)[pendingFrom..][k - pendingFrom := futures[k]];
        UnsettledUpdate(old(futures)[pendingFrom..], k - pendingFrom, futures[k]);
        TaskDone(Raised);
      }
    }

    /** One turn of the stop button's loop over `pending_tasks`: the `i`-th
        future is cancelled when it has not started, so that the futures and
        the rows are those of a stop that has reached `i + 1`. */
    method CancelNext(ghost fs: seq<Future>, ghost rows: seq<Row>, i: nat)
      requires Valid() && pendingFrom <= i < |fs| == |futures|
      requires futures == CancelFrom(fs[..i], pendingFrom) + fs[i..]
      requires completedResults == rows + ErrorRows(QueuedCount(fs[pendingFrom..i]))
      requires !scrapingActive
      modifies this`futures, this`completedResults, this`scrapingActive
      ensures !scrapingActive
      ensures futures == CancelFrom(fs[..i + 1], pendingFrom) + fs[i + 1..]
      ensures completedResults == rows + ErrorRows(QueuedCount(fs[pendingFrom..i + 1]))
      ensures old(Accounted()) ==> Accounted()
    {
      ghost var n := QueuedCount(fs[pendingFrom..i]);
      CancelFromStep(fs, pendingFrom, i);
      QueuedCountStep(fs, pendingFrom, i);
      ErrorRowsStep(n);
      assert futures[i] == fs[i];
      Cancel(i);
    }

    /** The stop button: the run is over, the timer stops, and every pending
        future that has not started is cancelled; its callback fires at once
        and appends an "Error" row. Running futures cannot be cancelled and
        finish later. */
    method Stop()
      requires Valid()
      modifies this`scrapingActive, this`futures, this`completedResults, this`intervalDisabled
      ensures Valid()
      ensures !scrapingActive && intervalDisabled
      ensures futures == CancelFrom(old(futures), pendingFrom)
      ensures completedResults == old(completedResults) + ErrorRows(QueuedCount(old(futures)[pendingFrom..]))
      ensures old(Accounted()) ==> Accounted()
    {
      scrapingActive := false;
      ghost var fs := futures;
      ghost var rows := completedResults;
      var i := pendingFrom;
      while i < |futures|
        invariant pendingFrom <= i <= |futures| == |fs|
        invariant futures == CancelFrom(fs[..i], pendingFrom) + fs[i..]
        invariant completedResults == rows + ErrorRows(QueuedCount(fs[pendingFrom..i]))
        invariant !scrapingActive
        invariant old(Accounted()) ==> Accounted()
      {
        CancelNext(fs, rows, i);
        i := i + 1;
      }
      intervalDisabled := true;
      assert fs[..i] == fs && fs[i..] == [] && fs[pendingFrom..i] == fs[pendingFrom..];
    }

    /** The restart button: the rows, the batch size and `pending_tasks` are
        cleared and the timer stops; `scraping_active`, the retry counters and
        the futures the executor still holds are left as they are. */
    method Restart()
      requires Valid()
      modifies this`completedResults, this`totalTasks, this`pendingFrom, this`intervalDisabled
      ensures Valid()
      ensures completedResults == [] && totalTasks == 0 && pendingFrom == |futures| && intervalDisabled
      ensures Accounted() <==> Idle()
    {
      completedResults := [];
      totalTasks := 0;
      pendingFrom := |futures|;
      intervalDisabled := true;
    }

    /** `search_person(person, cos_th, fuzz_th, key)` against the `i`-th and
        later provider answers, with its recursive retry. */
    method SearchPerson(m: Models, p: Person, cosTh: real, fuzzTh: real, apiKey: string, envKey: string,
                        answers: nat -> Attempt, i: nat) returns (r: Option<Row>)
      modifies this`retryAttempts
      ensures var run := Chain(m, p, cosTh, fuzzTh, apiKey, envKey, answers, i, old(retryAttempts));
        r == run.result && retryAttempts == run.retries
      decreases MaxRetries - Used(retryAttempts, FullName(p))
    {
      var a := answers(i);
      var _, first := SerpApiSearch(m, p, apiKey, envKey, a.serp);
      if first.Some? {
        return first;
      }
      var name := FullName(p);
      var attempt := Used(retryAttempts, name);
      match a.bing {
        case BingEntries(es) =>
          var _, best := BingSearch(m, p, cosTh, fuzzTh, es);
          r := best;
        case BingFault =>
          if attempt < MaxRetries {
            retryAttempts := retryAttempts[name := attempt + 1];
            r := SearchPerson(m, p, DefaultCosine, DefaultFuzzy, "", envKey, answers, i + 1);
          } else {
            r := None;
          }
      }
    }

    /** A worker runs the future it started to completion: the row appended is
        the answer of the provider chain for that person, with the thresholds
        and key the batch was submitted with. */
    method RunTask(k: nat, m: Models, envKey: string, answers: nat -> Attempt)
      requires Valid() && k < |futures| && futures[k].state == Running
      modifies this`futures, this`completedResults, this`scrapingActive, this`retryAttempts
      ensures Valid()
      ensures var f := old(futures)[k];
        var run := Chain(m, f.person, f.cosTh, f.fuzzTh, f.apiKey, envKey, answers, 0, old(retryAttempts));
        && retryAttempts == run.retries
        && completedResults == old(completedResults) + [CompletionRow(Returned(run.result))]
      ensures futures == old(futures)[k := old(futures)[k].(state := Finished)]
      ensures scrapingActive == (old(scrapingActive) && |completedResults| != totalTasks)
      ensures old(Accounted()) ==> Accounted()
    {
      var f := futures[k];
      var r := SearchPerson(m, f.person, f.cosTh, f.fuzzTh, f.apiKey, envKey, answers, 0);
      FinishTask(k, Returned(r));
    }

    /** The search button of `update_table`. */
    method Search(form: Form, uploaded: seq<Person>) returns (started: bool)
      requires Valid()
      modifies this`finalTableReady, this`finalizedTableData, this`intervalDisabled,
               this`scrapingActive, this`futures, this`pendingFrom, this`completedResults, this`totalTasks
      ensures Valid() && !finalTableReady && finalizedTableData == []
      ensures started == People(form, uploaded).Some?
      ensures !started ==> (intervalDisabled && futures == old(futures) && pendingFrom == old(pendingFrom)
        && completedResults == old(completedResults) && totalTasks == old(totalTasks) && scrapingActive == old(scrapingActive))
      ensures started ==>
        var people := People(form, uploaded).value;
        && !intervalDisabled && scrapingActive && completedResults == [] && totalTasks == |people|
        && futures == old(futures) + Submitted(people, form.cosTh, form.fuzzTh, form.apiKey)
        && pendingFrom == |old(futures)|
      ensures started ==> (Accounted() <==> old(Idle()))
    {
      finalTableReady := false;
      finalizedTableData := [];
      var people: seq<Person>;
      if form.firstName != "" && form.lastName != "" && form.university != "" {
        people := [ManualPerson(form)];
      } else if uploaded != [] {
        people := uploaded;
      } else {
        intervalDisabled := true;
        return false;
      }
      if form.nameLimit.Some? && form.nameLimit.value > 0 && form.nameLimit.value < |people| {
        people := people[..form.nameLimit.value];
      }
      Enqueue(people, form.cosTh, form.fuzzTh, form.apiKey);
      intervalDisabled := false;
      started := true;
    }

    /** One tick of the interval timer in `update_table`. */
    method IntervalTick() returns (t: Tick)
      requires Valid()
      modifies this`completedResults, this`finalTableReady, this`finalizedTableData, this`intervalDisabled
      ensures Valid()
      ensures |completedResults| == |old(completedResults)|
      ensures old(intervalDisabled) ==> (t == NotFired && completedResults == old(completedResults)
        && finalTableReady == old(finalTableReady) && finalizedTableData == old(finalizedTableData)
        && intervalDisabled)
      ensures !old(intervalDisabled) && scrapingActive ==>
        && ProgressShown(old(completedResults), totalTasks, t, completedResults)
        && !intervalDisabled && finalTableReady == old(finalTableReady) && finalizedTableData == old(finalizedTableData)
      ensures !old(intervalDisabled) && !scrapingActive && old(completedResults) != [] ==>
        && t == Complete(finalizedTableData) && finalTableReady && intervalDisabled
        && (old(finalTableReady) ==> finalizedTableData == old(finalizedTableData) && completedResults == old(completedResults))
        && (!old(finalTableReady) ==> FinalTable(old(completedResults), finalizedTableData) && completedResults == finalizedTableData)
      ensures !old(intervalDisabled) && !scrapingActive && old(completedResults) == [] ==>
        (t == NoChange && completedResults == [] && finalTableReady == old(finalTableReady)
        && finalizedTableData == old(finalizedTableData) && intervalDisabled == old(intervalDisabled))
      ensures old(Accounted()) ==> Accounted()
    {
      if intervalDisabled {
        t := NotFired;
      } else if scrapingActive {
        t := ShowProgress();
      } else if completedResults != [] {
        ShowFinal();
        t := Complete(finalizedTableData);
      } else {
        t := NoChange;
      }
    }

    /** The tick while the run is active: the percentage and the rows numbered
        for display, or a crash when the batch is empty. */
    method ShowProgress() returns (t: Tick)
      requires Valid()
      modifies this`completedResults
      ensures Valid()
      ensures |completedResults| == |old(completedResults)|
      ensures ProgressShown(old(completedResults), totalTasks, t, completedResults)
      ensures old(Accounted()) ==> Accounted()
    {
      var percent := PercentComplete(|completedResults|, totalTasks);
      if percent.None? {
        return Crashed;
      }
      var rows := NumberRows(completedResults, false);
      completedResults := rows;
      return Progress(percent.value, rows);
    }

    /** The tick after the run has ended with rows: the final table is built
        once, shown, and the timer stops. */
    method ShowFinal()
      requires Valid() && completedResults != []
      modifies this`completedResults, this`finalTableReady, this`finalizedTableData, this`intervalDisabled
      ensures finalTableReady && intervalDisabled && |completedResults| == |old(completedResults)|
      ensures old(finalTableReady) ==>
        finalizedTableData == old(finalizedTableData) && completedResults == old(completedResults)
      ensures !old(finalTableReady) ==>
        FinalTable(old(completedResults), finalizedTableData) && completedResults == finalizedTableData
    {
      if !finalTableReady {
        var rows := FinalRows(completedResults);
        finalizedTableData := rows;
        completedResults := rows;
        finalTableReady := true;
      }
      intervalDisabled := true;
    }
  }

  lemma {:induction false} UnsettledZero(fs: seq<Future>)
    ensures Unsettled(fs) == 0 <==> forall k :: 0 <= k < |fs| ==> Settled(fs[k])
  {
    if fs != [] {
      UnsettledZero(fs[1..]);
      assert forall k :: 0 <= k < |fs[1..]| ==> fs[1..][k] == fs[k + 1];
      assert forall k :: 0 < k < |fs| ==> fs[k] == fs[1..][k - 1];
    }
  }

  /** While the rows account for the batch, the run ends (the row count
      reaches `total_tasks`) exactly when no submitted future is still queued
      or running. */
  lemma BatchEndsWhenIdle(e: Engine)
    requires e.Accounted()
    ensures |e.completedResults| == e.totalTasks <==> e.Idle()
  {
    UnsettledZero(e.futures[e.pendingFrom..]);
    assert forall k :: e.pendingFrom <= k < |e.futures| ==> e.futures[k] == e.futures[e.pendingFrom..][k - e.pendingFrom];
  }

  /** What the interval tick shows: nothing (the timer is off), a crash (the
      division by zero of an empty batch), the progress bar with the numbered
      rows so far, the final table, or no update. */
  datatype Tick = NotFired | Crashed | Progress(percent: nat, rows: seq<Row>) | Complete(rows: seq<Row>) | NoChange

  /** A tick while the run is active: with no tasks, the division by zero
      crashes the callback and the rows stay; otherwise the bar shows the
      percentage and the rows are numbered for display. */
  predicate ProgressShown(before: seq<Row>, total: nat, t: Tick, after: seq<Row>)
  {
    match PercentComplete(|before|, total)
    case None => t == Crashed && after == before
    case Some(p) => t == Progress(p, after) && after == Numbered(before, false)
  }

  /** The final table of `update_table`: `finalize_income_estimates` on the
      rows, then the numbering with "No Match" for rows without a status. */
  method FinalRows(c: seq<Row>) returns (rows: seq<Row>)
    ensures |rows| == |c|
    ensures FinalTable(c, rows)
  {
    var table := new Row[|c|](i requires 0 <= i < |c| => c[i]);
    FinalizeIncomeEstimates(table);
    rows := NumberRows(table[..], true);
    assert forall i :: 0 <= i < |c| ==> Finalized(SalaryTable, c[i], table[..][i]);
  }

  /** `after` is `before` with each row finalised and the rows then numbered
      for the final table. */
  ghost predicate FinalTable(before: seq<Row>, after: seq<Row>)
  {
    exists mid: seq<Row> :: |mid| == |before|
      && (forall i :: 0 <= i < |before| ==> Finalized(SalaryTable, before[i], mid[i]))
      && after == Numbered(mid, true)
  }

  // ---------------------------------------------------------- search form

  /** The search form: the manual person, the thresholds, the name limit and
      the stored SerpAPI key ("" when none). */
  datatype Form = Form(firstName: string, lastName: string, university: string, gradYear: string,
                       cosTh: real, fuzzTh: real, nameLimit: Option<int>, apiKey: string)

  /** The person typed into the form; the graduation year only when given. */
  function ManualPerson(form: Form): Person
  {
    Person(form.firstName, form.lastName, form.university,
           if form.gradYear != "" then Some(form.gradYear) else None)
  }

  /** The people a search runs on: the typed person when first name, last name
      and university are all given, otherwise the uploaded list, cut to the
      name limit when that is a positive integer; `None` is "No data
      provided". A search starts exactly when the form names a person or a
      list was uploaded, and a started batch is never empty, so its progress
      never divides by zero. */
  function People(form: Form, uploaded: seq<Person>): (ps: Option<seq<Person>>)
    ensures ps.Some? <==> (form.firstName != "" && form.lastName != "" && form.university != "") || uploaded != []
    ensures ps.Some? ==> |ps.value| >= 1
  {
    var base :=
      if form.firstName != "" && form.lastName != "" && form.university != "" then Some([ManualPerson(form)])
      else if uploaded != [] then Some(uploaded)
      else None;
    if base.None? then None
    else if form.nameLimit.Some? && form.nameLimit.value > 0 && form.nameLimit.value < |base.value|
    then Some(base.value[..form.nameLimit.value])
    else base
  }

  /** The typed person wins over the list; a batch from the list is a prefix
      of it, no longer than a positive name limit. */
  lemma PeopleSpec(form: Form, uploaded: seq<Person>)
    ensures var manual := form.firstName != "" && form.lastName != "" && form.university != "";
      var ps := People(form, uploaded);
      && (ps.Some? && manual ==> ps.value == [ManualPerson(form)])
      && (ps.Some? && !manual ==> ps.value == uploaded[..|ps.value|])
      && (ps.Some? && form.nameLimit.Some? && form.nameLimit.value > 0 ==> |ps.value| <= form.nameLimit.value)
  {
  }
}
