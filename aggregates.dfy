/** The promise combinators `sequential`, `race`, `all` and `any` of the
    training suite, on an abstract timeline instead of an event loop.

    A promise that has been started is described by when it settles and how
    (a `Settlement`); a deferred task handed to `sequential` by how long it
    takes once started and how it ends (a `Task`).  Time is a natural number;
    the hops through the microtask queue between a settlement and the
    callbacks it triggers take no time here, and of two settle attempts at the
    same instant the one registered first wins. */
module Aggregates {
  import opened Wrappers

  datatype Outcome<V, E> = Fulfilled(value: V) | Rejected(reason: E)

  /** A started promise: it settles at `time` with `outcome`. */
  datatype Settlement<V, E> = Settlement(time: nat, outcome: Outcome<V, E>)

  /** The later of two instants. */
  function Later(a: nat, b: nat): nat
  {
    if a < b then b else a
  }

  // ---------------------------------------------------------------------
  // sequential
  // ---------------------------------------------------------------------

  /** A deferred task `() => resolveDelay(v, delay)` or `() => rejectDelay(r, delay)`:
      nothing happens until it is called; it then settles `delay` later. */
  datatype Task<V, E> = Task(delay: nat, outcome: Outcome<V, E>)

  /** One entry of the test log: `start:x`, `fulfill:x` or `reject:x`, where
      `x` is the label of the task at the given index. */
  datatype Event = Start(task: nat) | Fulfill(task: nat) | Reject(task: nat)

  /** The aggregate promise of `sequential` together with the log written
      while it ran. */
  datatype Run<V, E> = Run(time: nat, outcome: Outcome<seq<V>, E>, log: seq<Event>)

  /** One step of the reduce: `pAggr.then(result => pFn().then(v => result.concat(v)))`.
      A rejected aggregate skips the callback, so task `k` is never started.
      Task values are single values, for which `concat` appends one element. */
  function Link<V, E>(aggr: Run<V, E>, k: nat, task: Task<V, E>): (r: Run<V, E>)
    ensures aggr.outcome.Rejected? ==> r == aggr
    ensures aggr.log <= r.log
    ensures aggr.outcome.Fulfilled? ==>
      && r.time == aggr.time + task.delay
      && r.log == aggr.log + [Start(k), if task.outcome.Fulfilled? then Fulfill(k) else Reject(k)]
      && r.outcome.Rejected? == task.outcome.Rejected?
  {
    match aggr.outcome
    case Rejected(_) => aggr
    case Fulfilled(result) =>
      var settled := aggr.time + task.delay;
      match task.outcome
      case Fulfilled(v) => Run(settled, Fulfilled(result + [v]), aggr.log + [Start(k), Fulfill(k)])
      case Rejected(r) => Run(settled, Rejected(r), aggr.log + [Start(k), Reject(k)])
  }

  /** `promiseFns.reduce(Link, Promise.resolve([]))`, started at time 0. */
  function Sequential<V, E>(tasks: seq<Task<V, E>>): (r: Run<V, E>)
    ensures r.time <= TotalDelay(tasks)
    ensures |r.log| <= 2 * |tasks|
    ensures r.outcome.Rejected? <==> exists i :: 0 <= i < |tasks| && tasks[i].outcome.Rejected?
  {
    if |tasks| == 0 then Run(0, Fulfilled([]), [])
    else Link(Sequential(tasks[..|tasks| - 1]), |tasks| - 1, tasks[|tasks| - 1])
  }

  function TotalDelay<V, E>(tasks: seq<Task<V, E>>): nat
  {
    if |tasks| == 0 then 0 else TotalDelay(tasks[..|tasks| - 1]) + tasks[|tasks| - 1].delay
  }

  /** The log `start:0, fulfill:0, ..., start:n-1, fulfill:n-1`. */
  function Alternating(n: nat): (log: seq<Event>)
    ensures |log| == 2 * n
    ensures forall j :: 0 <= j < |log| ==> log[j] == if j % 2 == 0 then Start(j / 2) else Fulfill(j / 2)
  {
    if n == 0 then [] else Alternating(n - 1) + [Start(n - 1), Fulfill(n - 1)]
  }

  predicate FirstRejectedTask<V, E>(tasks: seq<Task<V, E>>, j: int)
  {
    && 0 <= j < |tasks|
    && tasks[j].outcome.Rejected?
    && forall i :: 0 <= i < j ==> tasks[i].outcome.Fulfilled?
  }

  /** When every task fulfils, `sequential` fulfils with their values in input
      order, after the sum of the delays, and the log alternates start/fulfill
      task by task.  For no tasks this is `Promise.resolve([])`. */
  lemma {:induction false} SequentialFulfils<V, E>(tasks: seq<Task<V, E>>)
    requires forall i :: 0 <= i < |tasks| ==> tasks[i].outcome.Fulfilled?
    ensures var r := Sequential(tasks);
      && r.outcome.Fulfilled?
      && |r.outcome.value| == |tasks|
      && (forall i :: 0 <= i < |tasks| ==> r.outcome.value[i] == tasks[i].outcome.value)
      && r.time == TotalDelay(tasks)
      && r.log == Alternating(|tasks|)
  {
    if |tasks| > 0 {
      SequentialFulfils(tasks[..|tasks| - 1]);
    }
  }

  /** When task `j` is the first to reject, `sequential` rejects with its
      reason once it settles; the log is the start/fulfill pairs of the tasks
      before it followed by `start:j, reject:j`. */
  lemma {:induction false} SequentialRejects<V, E>(tasks: seq<Task<V, E>>, j: nat)
    requires FirstRejectedTask(tasks, j)
    ensures Sequential(tasks)
         == Run(TotalDelay(tasks[..j + 1]), Rejected(tasks[j].outcome.reason), Alternating(j) + [Start(j), Reject(j)])
  {
    var prefix := tasks[..|tasks| - 1];
    if |tasks| == j + 1 {
      assert tasks[..j + 1] == tasks;
      SequentialFulfils(prefix);
    } else {
      assert prefix[..j + 1] == tasks[..j + 1];
      SequentialRejects(prefix, j);
    }
  }

  /** No task after the first rejecting one is ever started. */
  lemma NoStartAfterRejection<V, E>(tasks: seq<Task<V, E>>, j: nat)
    requires FirstRejectedTask(tasks, j)
    ensures forall e :: e in Sequential(tasks).log ==> e.task <= j
    ensures Start(j) in Sequential(tasks).log && Reject(j) in Sequential(tasks).log
  {
    SequentialRejects(tasks, j);
    var log := Sequential(tasks).log;
    forall e | e in log ensures e.task <= j {
      var k :| 0 <= k < |log| && log[k] == e;
      if k < 2 * j {
        assert e == if k % 2 == 0 then Start(k / 2) else Fulfill(k / 2);
      }
    }
    assert log[2 * j] == Start(j);
    assert log[2 * j + 1] == Reject(j);
  }

  /** Test "executes promises sequentially": delays 300, 200, 100. */
  lemma SequentialKeepsInputOrder()
    ensures Sequential<string, string>([Task(300, Fulfilled("f1")), Task(200, Fulfilled("f2")), Task(100, Fulfilled("f3"))])
         == Run(600, Fulfilled(["f1", "f2", "f3"]), [Start(0), Fulfill(0), Start(1), Fulfill(1), Start(2), Fulfill(2)])
  {
    var tasks: seq<Task<string, string>> := [Task(300, Fulfilled("f1")), Task(200, Fulfilled("f2")), Task(100, Fulfilled("f3"))];
    SequentialFulfils(tasks);
    assert tasks[..2][..1] == tasks[..1] && tasks[..1][..0] == [];
    assert TotalDelay(tasks[..1]) == 300;
    assert TotalDelay(tasks[..2]) == 500;
    assert TotalDelay(tasks) == 600;
    var log := Alternating(3);
    assert log == [log[0], log[1], log[2], log[3], log[4], log[5]];
    var values := Sequential(tasks).outcome.value;
    assert values == [values[0], values[1], values[2]];
  }

  /** Test "rejects when first item is rejected": the third task never starts. */
  lemma SequentialStopsAtRejection()
    ensures Sequential<string, string>([Task(300, Fulfilled("f1")), Task(200, Rejected("s2")), Task(100, Fulfilled("f3"))])
         == Run(500, Rejected("s2"), [Start(0), Fulfill(0), Start(1), Reject(1)])
  {
    var tasks: seq<Task<string, string>> := [Task(300, Fulfilled("f1")), Task(200, Rejected("s2")), Task(100, Fulfilled("f3"))];
    assert FirstRejectedTask(tasks, 1);
    SequentialRejects(tasks, 1);
    assert tasks[..2][..1] == tasks[..1] && tasks[..1][..0] == [];
    assert TotalDelay(tasks[..1]) == 300;
    assert TotalDelay(tasks[..2]) == 500;
    var log := Alternating(1);
    assert log == [log[0], log[1]];
  }

  // ---------------------------------------------------------------------
  // Settle-once output promises and race
  // ---------------------------------------------------------------------

  /** Attempt `i` is the earliest of all, and strictly earlier than every
      attempt registered before it. */
  ghost predicate SettlesFirst<V, E>(attempts: seq<Settlement<V, E>>, i: int)
  {
    && 0 <= i < |attempts|
    && (forall k :: 0 <= k < |attempts| ==> attempts[i].time <= attempts[k].time)
    && (forall k :: 0 <= k < i ==> attempts[i].time < attempts[k].time)
  }

  /** The position of the earliest of a non-empty sequence of settle attempts,
      the first registered on a tie. */
  function EarliestIndex<V, E>(attempts: seq<Settlement<V, E>>): (i: nat)
    requires |attempts| > 0
    ensures SettlesFirst(attempts, i)
  {
    if |attempts| == 1 then 0
    else
      var j := EarliestIndex(attempts[..|attempts| - 1]);
      if attempts[|attempts| - 1].time < attempts[j].time then |attempts| - 1 else j
  }

  /** The promise built by `new Promise((resolve, reject) => ...)` that receives
      the given resolve/reject calls, in registration order: it settles once,
      with the earliest call; later calls are ignored.  No call: it never settles. */
  function FirstToSettle<V, E>(attempts: seq<Settlement<V, E>>): (r: Option<Settlement<V, E>>)
    ensures r.None? <==> |attempts| == 0
    ensures r.Some? ==> exists i :: SettlesFirst(attempts, i) && r.value == attempts[i]
  {
    if |attempts| == 0 then None else Some(attempts[EarliestIndex(attempts)])
  }

  /** `race`: every input forwards its own settlement to the output
      (`p.then(resolve).catch(reject)`), so the output adopts the kind and
      payload of the earliest-settling input; with no input nothing is ever
      registered and the output never settles. */
  function Race<V, E>(promises: seq<Settlement<V, E>>): (r: Option<Settlement<V, E>>)
    ensures r.None? <==> |promises| == 0
    ensures r.Some? ==> exists i :: SettlesFirst(promises, i) && r.value == promises[i]
  {
    FirstToSettle(promises)
  }

  /** The earliest input wins whatever its position. */
  lemma {:induction false} RaceAdoptsEarliest<V, E>(promises: seq<Settlement<V, E>>, i: nat)
    requires i < |promises|
    requires forall k :: 0 <= k < |promises| && k != i ==> promises[i].time < promises[k].time
    ensures Race(promises) == Some(promises[i])
  {
    var j := EarliestIndex(promises);
    assert Race(promises) == Some(promises[j]);
    if j != i {
      assert false;
    }
  }

  /** The four race tests. */
  lemma RaceScenarios()
    ensures Race<string, string>([Settlement(100, Fulfilled("s1")), Settlement(200, Rejected("f1"))])
         == Some(Settlement(100, Fulfilled("s1")))
    ensures Race<string, string>([Settlement(100, Rejected("f1")), Settlement(200, Fulfilled("s1"))])
         == Some(Settlement(100, Rejected("f1")))
    ensures Race<string, string>([Settlement(300, Fulfilled("s1")), Settlement(100, Fulfilled("s2")), Settlement(200, Fulfilled("s3"))])
         == Some(Settlement(100, Fulfilled("s2")))
    ensures Race<string, string>([Settlement(300, Rejected("f1")), Settlement(100, Rejected("f2")), Settlement(200, Rejected("f3"))])
         == Some(Settlement(100, Rejected("f2")))
    ensures Race<string, string>([]) == None
  {
  }

  // ---------------------------------------------------------------------
  // Facts about a sequence of started promises
  // ---------------------------------------------------------------------

  /** The moment every promise of `ps` has settled (0 for none: `Promise.resolve()`). */
  function LatestTime<V, E>(ps: seq<Settlement<V, E>>): (t: nat)
    ensures forall i :: 0 <= i < |ps| ==> ps[i].time <= t
    ensures t == 0 || exists i :: 0 <= i < |ps| && ps[i].time == t
  {
    if |ps| == 0 then 0 else Later(LatestTime(ps[..|ps| - 1]), ps[|ps| - 1].time)
  }

  /** The lowest index of a rejecting promise, if any. */
  function FirstRejection<V, E>(ps: seq<Settlement<V, E>>): (j: Option<nat>)
    ensures j.None? <==> forall i :: 0 <= i < |ps| ==> ps[i].outcome.Fulfilled?
    ensures j.Some? ==> && j.value < |ps|
                        && ps[j.value].outcome.Rejected?
                        && forall i :: 0 <= i < j.value ==> ps[i].outcome.Fulfilled?
  {
    if |ps| == 0 then None
    else match FirstRejection(ps[..|ps| - 1])
      case Some(j) => Some(j)
      case None => if ps[|ps| - 1].outcome.Rejected? then Some(|ps| - 1) else None
  }

  function Values<V, E>(ps: seq<Settlement<V, E>>): (vs: seq<V>)
    requires forall i :: 0 <= i < |ps| ==> ps[i].outcome.Fulfilled?
    ensures |vs| == |ps| && forall i :: 0 <= i < |ps| ==> vs[i] == ps[i].outcome.value
  {
    seq(|ps|, i requires 0 <= i < |ps| => ps[i].outcome.value)
  }

  function Reasons<V, E>(ps: seq<Settlement<V, E>>): (rs: seq<E>)
    requires forall i :: 0 <= i < |ps| ==> ps[i].outcome.Rejected?
    ensures |rs| == |ps| && forall i :: 0 <= i < |ps| ==> rs[i] == ps[i].outcome.reason
  {
    seq(|ps|, i requires 0 <= i < |ps| => ps[i].outcome.reason)
  }

  /** The indices of the rejecting promises of `ps`, in increasing order. */
  function RejectingIndices<V, E>(ps: seq<Settlement<V, E>>): seq<nat>
  {
    if |ps| == 0 then []
    else RejectingIndices(ps[..|ps| - 1]) + if ps[|ps| - 1].outcome.Rejected? then [|ps| - 1] else []
  }

  /** The reasons of the rejecting promises of `ps`, in input order. */
  function RejectedReasons<V, E>(ps: seq<Settlement<V, E>>): (rs: seq<E>)
    ensures |rs| <= |ps|
    ensures |rs| == |ps| <==> forall i :: 0 <= i < |ps| ==> ps[i].outcome.Rejected?
    ensures |rs| == |ps| ==> forall i :: 0 <= i < |ps| ==> rs[i] == ps[i].outcome.reason
  {
    if |ps| == 0 then []
    else
      var last := ps[|ps| - 1];
      RejectedReasons(ps[..|ps| - 1]) + if last.outcome.Rejected? then [last.outcome.reason] else []
  }

  /** `RejectingIndices` lists exactly the rejecting positions, in increasing order. */
  lemma {:induction false} RejectingIndicesExact<V, E>(ps: seq<Settlement<V, E>>)
    ensures forall j :: 0 <= j < |RejectingIndices(ps)| ==>
      RejectingIndices(ps)[j] < |ps| && ps[RejectingIndices(ps)[j]].outcome.Rejected?
    ensures forall j, k :: 0 <= j < k < |RejectingIndices(ps)| ==> RejectingIndices(ps)[j] < RejectingIndices(ps)[k]
    ensures forall i :: 0 <= i < |ps| && ps[i].outcome.Rejected? ==> i in RejectingIndices(ps)
  {
    if |ps| > 0 {
      var prefix := ps[..|ps| - 1];
      RejectingIndicesExact(prefix);
      var idx := RejectingIndices(prefix);
      var all := RejectingIndices(ps);
      assert all == idx + if ps[|ps| - 1].outcome.Rejected? then [|ps| - 1] else [];
      forall j | 0 <= j < |all| ensures all[j] < |ps| && ps[all[j]].outcome.Rejected? {
        if j < |idx| {
          assert ps[idx[j]] == prefix[idx[j]];
        }
      }
      forall i | 0 <= i < |ps| && ps[i].outcome.Rejected? ensures i in all {
        if i < |prefix| {
          assert prefix[i] == ps[i];
          assert i in idx;
        }
      }
    }
  }

  /** In general, `rejections` holds exactly the reasons of the rejecting
      inputs, one per rejecting input, in input order. */
  lemma {:induction false} RejectedReasonsInOrder<V, E>(ps: seq<Settlement<V, E>>)
    ensures |RejectedReasons(ps)| == |RejectingIndices(ps)|
    ensures forall j :: 0 <= j < |RejectingIndices(ps)| ==>
      RejectingIndices(ps)[j] < |ps| && ps[RejectingIndices(ps)[j]].outcome.Rejected?
      && RejectedReasons(ps)[j] == ps[RejectingIndices(ps)[j]].outcome.reason
  {
    RejectingIndicesExact(ps);
    if |ps| > 0 {
      var prefix := ps[..|ps| - 1];
      RejectedReasonsInOrder(prefix);
      RejectingIndicesExact(prefix);
      var idx := RejectingIndices(prefix);
      forall j | 0 <= j < |idx| ensures RejectedReasons(prefix)[j] == ps[idx[j]].outcome.reason {
        assert ps[idx[j]] == prefix[idx[j]];
      }
    }
  }

  predicate EarliestFulfilment<V, E>(ps: seq<Settlement<V, E>>, i: int)
  {
    && 0 <= i < |ps|
    && ps[i].outcome.Fulfilled?
    && forall k :: 0 <= k < |ps| && ps[k].outcome.Fulfilled? ==> ps[i].time <= ps[k].time
  }

  // ---------------------------------------------------------------------
  // all
  // ---------------------------------------------------------------------

  /** `all`: the reduce builds the chain `aggr.then(_ => p).then(v => values.push(v))`
      link by link; the loop below walks the same links in the same order.
      The output fulfils with the values in input order once every input has
      fulfilled, and otherwise rejects with the reason of the lowest-index
      rejection, once that input and every input before it have settled. */
  method All<V, E>(promises: seq<Settlement<V, E>>) returns (r: Settlement<seq<V>, E>)
    ensures FirstRejection(promises).None? ==>
      && r.outcome.Fulfilled?
      && r.outcome.value == Values(promises)
      && r.time == LatestTime(promises)
    ensures FirstRejection(promises).Some? ==>
      var j := FirstRejection(promises).value;
      && r == Settlement(LatestTime(promises[..j + 1]), Rejected(promises[j].outcome.reason))
      && forall i :: 0 <= i <= j ==> promises[i].time <= r.time
  {
    var values: seq<V> := [];
    var time: nat := 0;               // when the chain built so far settles
    var rejection: Option<E> := None; // the chain's rejection reason, once it has rejected
    for k := 0 to |promises|
      invariant AllChain(promises, k, time, rejection, values)
    {
      AllLink(promises, k, time, rejection, values);
      if rejection.None? {
        // aggr.then(_ => p): the link settles when both the chain and p have
        time := Later(time, promises[k].time);
        match promises[k].outcome
        case Fulfilled(v) =>
          values := values + [v];      // .then(v => values.push(v))
        case Rejected(e) =>
          rejection := Some(e);
      }
    }
    assert promises[..|promises|] == promises;
    match rejection
    case None =>
      r := Settlement(time, Fulfilled(values));   // .then(_ => values)
    case Some(e) =>
      r := Settlement(time, Rejected(e));
  }

  /** The state of `all` after the first `k` links: until a rejection it
      holds every value so far and settles with the latest input; after the
      lowest-index rejection `j` it keeps `j`'s reason and settle time. */
  ghost predicate AllChain<V, E>(ps: seq<Settlement<V, E>>, k: nat, time: nat, rejection: Option<E>, values: seq<V>)
    requires k <= |ps|
  {
    match FirstRejection(ps[..k])
    case None => rejection.None? && time == LatestTime(ps[..k]) && values == Values(ps[..k])
    case Some(j) => j < k && rejection == Some(ps[j].outcome.reason) && time == LatestTime(ps[..j + 1])
  }

  /** One link of the `all` chain keeps `AllChain`. */
  lemma AllLink<V, E>(ps: seq<Settlement<V, E>>, k: nat, time: nat, rejection: Option<E>, values: seq<V>)
    requires k < |ps| && AllChain(ps, k, time, rejection, values)
    ensures AllChain(ps, k + 1,
      if rejection.None? then Later(time, ps[k].time) else time,
      if rejection.None? && ps[k].outcome.Rejected? then Some(ps[k].outcome.reason) else rejection,
      if rejection.None? && ps[k].outcome.Fulfilled? then values + [ps[k].outcome.value] else values)
  {
    AllStep(ps, k);
  }

  /** How the chain's settle time, first rejection and values grow by one link. */
  lemma AllStep<V, E>(ps: seq<Settlement<V, E>>, k: nat)
    requires k < |ps|
    ensures LatestTime(ps[..k + 1]) == Later(LatestTime(ps[..k]), ps[k].time)
    ensures FirstRejection(ps[..k]).Some? ==> FirstRejection(ps[..k + 1]) == FirstRejection(ps[..k])
    ensures FirstRejection(ps[..k]).None? ==>
      FirstRejection(ps[..k + 1]) == if ps[k].outcome.Rejected? then Some(k) else None
    ensures FirstRejection(ps[..k + 1]).None? ==> Values(ps[..k + 1]) == Values(ps[..k]) + [ps[k].outcome.value]
  {
    assert ps[..k + 1][..k] == ps[..k];
  }

  /** Test "is resolved after all promises get resolved". */
  method AllKeepsInputOrder() returns (r: Settlement<seq<string>, string>)
    ensures r == Settlement(300, Fulfilled(["s1", "s2", "s3"]))
  {
    var ps: seq<Settlement<string, string>> :=
      [Settlement(100, Fulfilled("s1")), Settlement(300, Fulfilled("s2")), Settlement(200, Fulfilled("s3"))];
    r := All(ps);
    assert FirstRejection(ps).None?;
    assert r.outcome.value == ["s1", "s2", "s3"];
  }

  /** Test "is rejected if at least one gets rejected" (its expectation names
      the undefined identifier `f2`; the reason meant is the string "f2"),
      and the same inputs with the fulfilling one slower than the rejection:
      the rejection is seen only once the earlier input has settled. */
  method AllRejectsWithFirstRejection() returns (r: Settlement<seq<string>, string>, slow: Settlement<seq<string>, string>)
    ensures r == Settlement(300, Rejected("f2"))
    ensures slow == Settlement(300, Rejected("f2"))
  {
    var ps: seq<Settlement<string, string>> :=
      [Settlement(100, Fulfilled("s1")), Settlement(300, Rejected("f2")), Settlement(200, Fulfilled("s3"))];
    assert FirstRejection(ps) == Some(1);
    r := All(ps);
    assert ps[..2] == [ps[0], ps[1]];
    var qs: seq<Settlement<string, string>> := [Settlement(300, Fulfilled("s1")), Settlement(100, Rejected("f2"))];
    assert FirstRejection(qs) == Some(1);
    slow := All(qs);
    assert qs[..2] == qs;
  }

  // ---------------------------------------------------------------------
  // any
  // ---------------------------------------------------------------------

  /** `promises.forEach(item => item.then(resolve))`: one resolve call per
      fulfilling input, at its settle time. */
  function ResolveCalls<V, E, R>(promises: seq<Settlement<V, E>>): (calls: seq<Settlement<V, R>>)
    ensures forall c :: c in calls ==>
      exists i :: 0 <= i < |promises| && promises[i].outcome.Fulfilled?
                  && c == Settlement(promises[i].time, Fulfilled(promises[i].outcome.value))
    ensures forall i :: 0 <= i < |promises| && promises[i].outcome.Fulfilled? ==>
      Settlement(promises[i].time, Fulfilled(promises[i].outcome.value)) in calls
    ensures calls == [] <==> forall i :: 0 <= i < |promises| ==> promises[i].outcome.Rejected?
  {
    if |promises| == 0 then []
    else
      var last := promises[|promises| - 1];
      ResolveCalls(promises[..|promises| - 1])
        + if last.outcome.Fulfilled? then [Settlement(last.time, Fulfilled(last.outcome.value))] else []
  }

  /** The output of `promises.forEach(item => item.then(resolve))` alone:
      the earliest fulfilment wins. */
  lemma EarliestResolveCall<V, E, R>(promises: seq<Settlement<V, E>>)
    requires ResolveCalls<V, E, R>(promises) != []
    ensures var r := FirstToSettle(ResolveCalls<V, E, R>(promises));
      && r.Some?
      && exists i :: EarliestFulfilment(promises, i)
                     && r.value == Settlement(promises[i].time, Fulfilled(promises[i].outcome.value))
  {
    var calls := ResolveCalls<V, E, R>(promises);
    var w := EarliestIndex(calls);
    assert calls[w] in calls;
    var m :| 0 <= m < |promises| && promises[m].outcome.Fulfilled?
             && calls[w] == Settlement(promises[m].time, Fulfilled(promises[m].outcome.value));
    forall k | 0 <= k < |promises| && promises[k].outcome.Fulfilled?
      ensures promises[m].time <= promises[k].time
    {
      var c: Settlement<V, R> := Settlement(promises[k].time, Fulfilled(promises[k].outcome.value));
      assert c in calls;
      var n :| 0 <= n < |calls| && calls[n] == c;
    }
    assert EarliestFulfilment(promises, m);
  }

  /** How the chain's settle time and its rejection reasons grow by one link. */
  lemma AnyStep<V, E>(ps: seq<Settlement<V, E>>, k: nat)
    requires k < |ps|
    ensures LatestTime(ps[..k + 1]) == Later(LatestTime(ps[..k]), ps[k].time)
    ensures ps[k].outcome.Rejected? ==> RejectedReasons(ps[..k + 1]) == RejectedReasons(ps[..k]) + [ps[k].outcome.reason]
    ensures ps[k].outcome.Fulfilled? ==> RejectedReasons(ps[..k + 1]) == RejectedReasons(ps[..k])
  {
    assert ps[..k + 1][..k] == ps[..k];
    assert RejectedReasons(ps[..k]) + [] == RejectedReasons(ps[..k]);
  }

  /** The state of `any` after the first `k` links: the chain settles with
      the latest input so far, `rejections` holds the reasons so far, and
      `reject(rejections)` has been called once every input has rejected. */
  ghost predicate AnyChain<V, E>(ps: seq<Settlement<V, E>>, k: nat, time: nat, rejections: seq<E>,
                                 rejectCall: Option<Settlement<V, seq<E>>>)
    requires k <= |ps|
  {
    && time == LatestTime(ps[..k])
    && rejections == RejectedReasons(ps[..k])
    && rejectCall == if 0 < k && |rejections| == |ps| then Some(Settlement(time, Rejected(rejections))) else None
  }

  /** One link of the `any` chain keeps `AnyChain`. */
  lemma AnyLink<V, E>(ps: seq<Settlement<V, E>>, k: nat, time: nat, rejections: seq<E>,
                      rejectCall: Option<Settlement<V, seq<E>>>)
    requires k < |ps| && AnyChain(ps, k, time, rejections, rejectCall)
    ensures var time' := Later(time, ps[k].time);
      var rejections' := if ps[k].outcome.Rejected? then rejections + [ps[k].outcome.reason] else rejections;
      AnyChain(ps, k + 1, time', rejections',
        if ps[k].outcome.Rejected? && |rejections'| == |ps| then Some(Settlement(time', Rejected(rejections'))) else rejectCall)
  {
    AnyStep(ps, k);
  }

  /** `any`: the reduce builds `aggr.then(_ => p).catch(r => ...)` link by
      link, pushing each rejection into `rejections` in input order and
      calling `reject(rejections)` once all inputs have rejected; next to it
      every input forwards a fulfilment to `resolve`.  The output fulfils with
      the earliest fulfilment, and rejects only when every input rejects, with
      all reasons in input order.  With no inputs neither call happens. */
  method Any<V, E>(promises: seq<Settlement<V, E>>) returns (r: Option<Settlement<V, seq<E>>>)
    ensures r.None? <==> |promises| == 0
    ensures (exists i :: 0 <= i < |promises| && promises[i].outcome.Fulfilled?) ==>
      r.Some? && r.value.outcome.Fulfilled?
    ensures r.Some? && r.value.outcome.Fulfilled? ==>
      exists i :: EarliestFulfilment(promises, i)
                  && r.value == Settlement(promises[i].time, Fulfilled(promises[i].outcome.value))
    ensures r.Some? && r.value.outcome.Rejected? ==>
      && (forall i :: 0 <= i < |promises| ==> promises[i].outcome.Rejected?)
      && r.value == Settlement(LatestTime(promises), Rejected(Reasons(promises)))
  {
    var rejections: seq<E> := [];
    var time: nat := 0;                                   // when the chain built so far settles
    var rejectCall: Option<Settlement<V, seq<E>>> := None; // the call reject(rejections), if made
    for k := 0 to |promises|
      invariant AnyChain(promises, k, time, rejections, rejectCall)
    {
      AnyLink(promises, k, time, rejections, rejectCall);
      time := Later(time, promises[k].time);
      if promises[k].outcome.Rejected? {
        rejections := rejections + [promises[k].outcome.reason];
        if |rejections| == |promises| {
          rejectCall := Some(Settlement(time, Rejected(rejections)));
        }
      }
    }
    assert promises[..|promises|] == promises;
    var resolveCalls: seq<Settlement<V, seq<E>>> := ResolveCalls(promises);
    var attempts := (if rejectCall.Some? then [rejectCall.value] else []) + resolveCalls;
    AnySettles(promises, rejectCall);
    r := FirstToSettle(attempts);
  }

  /** The `new Promise` of `any` adopts the earliest of the `reject(rejections)`
      call, made once every input has rejected, and the `resolve` calls. */
  lemma AnySettles<V, E>(promises: seq<Settlement<V, E>>, rejectCall: Option<Settlement<V, seq<E>>>)
    requires rejectCall == if 0 < |promises| && |RejectedReasons(promises)| == |promises|
      then Some(Settlement(LatestTime(promises), Rejected(RejectedReasons(promises)))) else None
    ensures var r := FirstToSettle((if rejectCall.Some? then [rejectCall.value] else []) + ResolveCalls(promises));
      && (r.None? <==> |promises| == 0)
      && ((exists i :: 0 <= i < |promises| && promises[i].outcome.Fulfilled?) ==> r.Some? && r.value.outcome.Fulfilled?)
      && (r.Some? && r.value.outcome.Fulfilled? ==>
            exists i :: EarliestFulfilment(promises, i)
                        && r.value == Settlement(promises[i].time, Fulfilled(promises[i].outcome.value)))
      && (r.Some? && r.value.outcome.Rejected? ==>
            && (forall i :: 0 <= i < |promises| ==> promises[i].outcome.Rejected?)
            && r.value == Settlement(LatestTime(promises), Rejected(Reasons(promises))))
  {
    var resolveCalls: seq<Settlement<V, seq<E>>> := ResolveCalls(promises);
    var attempts := (if rejectCall.Some? then [rejectCall.value] else []) + resolveCalls;
    if resolveCalls == [] {
      assert attempts == if |promises| == 0 then [] else [rejectCall.value];
      assert |promises| > 0 ==> RejectedReasons(promises) == Reasons(promises);
    } else {
      assert attempts == resolveCalls;
      EarliestResolveCall<V, E, seq<E>>(promises);
    }
  }

  /** Test "resolves with the value of the first promise that resolves":
      the fulfilment wins although both rejections come earlier. */
  method AnyFulfilsDespiteRejections() returns (r: Option<Settlement<string, seq<string>>>)
    ensures r == Some(Settlement(300, Fulfilled("s1")))
  {
    var ps: seq<Settlement<string, string>> :=
      [Settlement(300, Fulfilled("s1")), Settlement(100, Rejected("f1")), Settlement(200, Rejected("f2"))];
    r := Any(ps);
    assert ps[0].outcome.Fulfilled?;
    ghost var i :| EarliestFulfilment(ps, i) && r.value == Settlement(ps[i].time, Fulfilled(ps[i].outcome.value));
    assert i == 0;
  }

  /** Test "rejects if all promises reject": the reasons come in input order,
      not in the order the inputs rejected. */
  method AnyRejectsInInputOrder() returns (r: Option<Settlement<string, seq<string>>>)
    ensures r == Some(Settlement(300, Rejected(["f1", "f2", "f3"])))
  {
    var ps: seq<Settlement<string, string>> :=
      [Settlement(300, Rejected("f1")), Settlement(100, Rejected("f2")), Settlement(200, Rejected("f3"))];
    r := Any(ps);
    assert forall i :: !EarliestFulfilment(ps, i);
    assert Reasons(ps) == ["f1", "f2", "f3"];
    assert LatestTime(ps) == 300;
  }
}
