/**
 The committer: per log a request counter, and a job that applies the log until its CAS on
 the counter succeeds. A step is one atomic access by a change handler or by a job; any
 interleaving of handlers and jobs over any number of logs is a run.
 */
module Committer {
  import opened Common

  type Log = nat
  type JobId = nat

  /** Program points of `mdv_committer_fn`; `requests` is its local variable. */
  datatype Job =
    | Queued
    | Loaded(requests: nat)
    | Applying(requests: nat)

  /**
   One `mdv_log_committer`. `emitting` handlers saw the counter at 0 and have not pushed their
   job yet. `changes` counts the counted changes and `begun` is what it was when the latest
   apply began.
   */
  datatype LogState = LogState(requests: nat, emitting: nat, jobs: map<JobId, Job>, changes: nat, begun: nat)

  /** The committers map; a log without an entry has never changed. */
  type State = map<Log, LogState>

  datatype Action =
    | Change
    | Emit(job: JobId)
    | Load(job: JobId)
    | Apply(job: JobId)
    | Cas(job: JobId)

  const FRESH := LogState(0, 0, map[], 0, 0)

  /** The state of a log; a log is registered on its first change. */
  function At(s: State, log: Log): LogState { if log in s then s[log] else FRESH }

  function LogStep(l: LogState, a: Action): Option<LogState> {
    match a
    case Change =>
      Some(l.(requests := l.requests + 1, changes := l.changes + 1,
              emitting := if l.requests == 0 then l.emitting + 1 else l.emitting))
    case Emit(j) =>
      if l.emitting == 0 || j in l.jobs then None
      else Some(l.(emitting := l.emitting - 1, jobs := l.jobs[j := Queued]))
    case Load(j) =>
      if j in l.jobs && l.jobs[j].Queued? then Some(l.(jobs := l.jobs[j := Loaded(l.requests)])) else None
    case Apply(j) =>
      if j in l.jobs && l.jobs[j].Loaded?
      then Some(l.(jobs := l.jobs[j := Applying(l.jobs[j].requests)], begun := l.changes)) else None
    case Cas(j) =>
      if !(j in l.jobs && l.jobs[j].Applying?) then None
      else if l.requests == l.jobs[j].requests then Some(l.(requests := 0, jobs := l.jobs - {j}))
      else Some(l.(jobs := l.jobs[j := Loaded(l.requests)]))
  }

  function Step(s: State, log: Log, a: Action): Option<State> {
    var l := LogStep(At(s, log), a);
    if l.None? then None else Some(s[log := l.value])
  }

  function Exec(s: State, actions: seq<(Log, Action)>): Option<State>
    decreases |actions|
  {
    if actions == [] then Some(s) else
    var next := Step(s, actions[0].0, actions[0].1);
    if next.None? then None else Exec(next.value, actions[1..])
  }

  ghost predicate Reachable(s: State) {
    exists actions :: Exec(map[], actions) == Some(s)
  }

  /** A job of this log exists or is about to be pushed. */
  predicate Busy(l: LogState) { l.emitting > 0 || l.jobs != map[] }

  predicate JobOk(l: LogState, j: Job) {
    match j
    case Queued => true
    case Loaded(q) => 1 <= q <= l.requests
    case Applying(q) => 1 <= q <= l.requests && l.changes <= l.begun + (l.requests - q)
  }

  ghost predicate LogInv(l: LogState) {
    && (Busy(l) <==> l.requests > 0)
    && l.emitting + |l.jobs| <= 1
    && (forall j :: j in l.jobs ==> JobOk(l, l.jobs[j]))
    && l.begun <= l.changes
    && (l.requests == 0 ==> l.begun == l.changes)
  }

  lemma SingleJob(jobs: map<JobId, Job>, j: JobId, k: JobId)
    requires |jobs| <= 1 && j in jobs && k in jobs
    ensures j == k && jobs - {j} == map[]
  {
    assert jobs.Keys - {j} == {} by {
      assert |jobs.Keys| == |jobs|;
      assert |jobs.Keys - {j}| == |jobs.Keys| - 1;
    }
    assert k !in jobs.Keys - {j};
  }

  lemma LogInvStep(l: LogState, a: Action, l': LogState)
    requires LogInv(l) && LogStep(l, a) == Some(l')
    ensures LogInv(l')
  {
    match a
    case Change =>
    case Emit(j) =>
      assert |l.jobs| == 0 && l.jobs == map[];
      assert l'.jobs == map[j := Queued];
    case Load(j) => JobReplaced(l, j, l');
    case Apply(j) => JobReplaced(l, j, l');
    case Cas(j) =>
      assert JobOk(l, l.jobs[j]);
      if l.requests == l.jobs[j].requests {
        SingleJob(l.jobs, j, j);
      } else {
        JobReplaced(l, j, l');
      }
  }

  lemma JobReplaced(l: LogState, j: JobId, l': LogState)
    requires LogInv(l) && j in l.jobs && j in l'.jobs && l'.jobs == l.jobs[j := l'.jobs[j]]
    requires JobOk(l, l.jobs[j]) ==> JobOk(l', l'.jobs[j])
    requires l'.requests == l.requests && l'.emitting == l.emitting && l'.changes == l.changes
    requires l.begun <= l'.begun <= l'.changes
    ensures LogInv(l')
  {
    assert l'.jobs.Keys == l.jobs.Keys;
    assert |l'.jobs| == |l'.jobs.Keys| == |l.jobs.Keys| == |l.jobs|;
    assert l.jobs != map[] && l'.jobs != map[];
    forall k | k in l'.jobs ensures JobOk(l', l'.jobs[k]) {
      SingleJob(l.jobs, j, k);
    }
  }

  ghost predicate Inv(s: State) { forall log :: log in s ==> LogInv(s[log]) }

  lemma {:induction false} InvRun(s: State, actions: seq<(Log, Action)>, s': State)
    requires Inv(s) && Exec(s, actions) == Some(s')
    ensures Inv(s')
    decreases |actions|
  {
    if actions != [] {
      var (log, a) := actions[0];
      var next := Step(s, log, a).value;
      LogInvStep(At(s, log), a, next[log]);
      InvRun(next, actions[1..], s');
    }
  }

  /** Commit coalescing: in every run and for every log at most one job lies between being about
      to be emitted and its successful CAS; the counter is positive exactly while there is one;
      and when it is 0 an apply began after the last counted change. */
  lemma CommitCoalescing(s: State, log: Log)
    requires Reachable(s) && log in s
    ensures s[log].emitting + |s[log].jobs| == (if s[log].requests > 0 then 1 else 0)
    ensures s[log].requests == 0 ==> s[log].begun == s[log].changes
  {
    var actions :| Exec(map[], actions) == Some(s);
    InvRun(map[], actions, s);
    var l := s[log];
    if l.jobs == map[] { assert |l.jobs| == 0; } else { var j :| j in l.jobs; assert |l.jobs - {j}| == |l.jobs| - 1; }
  }

  /** A job that fails its CAS applies again: the CAS only succeeds when no change was counted
      since the apply it follows began. */
  lemma ResetOnlyWhenApplied(s: State, log: Log, job: JobId)
    requires Reachable(s) && log in s && job in s[log].jobs && s[log].jobs[job].Applying?
    requires LogStep(s[log], Cas(job)).value.requests == 0
    ensures s[log].begun == s[log].changes
  {
    var actions :| Exec(map[], actions) == Some(s);
    InvRun(map[], actions, s);
    assert JobOk(s[log], s[log].jobs[job]);
  }

  /** Changes counted during the first applies of a job: `arrivals[i]` of them during the i-th. */
  function FirstQuiet(arrivals: seq<nat>): (n: nat)
    ensures n <= |arrivals|
    ensures forall i :: 0 <= i < n ==> arrivals[i] > 0
    ensures n < |arrivals| ==> arrivals[n] == 0
  {
    if arrivals == [] || arrivals[0] == 0 then 0 else 1 + FirstQuiet(arrivals[1..])
  }

  /** `mdv_log_committer` with its handler and its job as written. */
  class LogCommitter {
    var requests: nat
    var changes: nat
    var begun: nat
    var applies: nat

    constructor ()
      ensures requests == 0 && changes == 0 && begun == 0 && applies == 0
    {
      requests, changes, begun, applies := 0, 0, 0, 0;
    }

    /** Count a change; the caller has to push a job exactly when the counter was 0. */
    method Start() returns (emit: bool)
      modifies this`requests, this`changes
      ensures requests == old(requests) + 1 && changes == old(changes) + 1
      ensures emit <==> old(requests) == 0
    {
      emit := requests == 0;
      requests, changes := requests + 1, changes + 1;
    }

    /** The job applies until an apply during which no change was counted, and no longer. */
    method Run(arrivals: seq<nat>)
      requires requests > 0
      modifies this
      ensures requests == 0 && begun == changes
      ensures applies == old(applies) + FirstQuiet(arrivals) + 1
    {
      var expected := requests;
      var done := false;
      var i := 0;
      while !done
        invariant i <= |arrivals| && (forall k :: 0 <= k < i ==> arrivals[k] > 0)
        invariant !done ==> expected == requests && requests > 0
        invariant !done ==> applies == old(applies) + i && i <= FirstQuiet(arrivals)
        invariant done ==> requests == 0 && begun == changes && applies == old(applies) + FirstQuiet(arrivals) + 1
        decreases !done, |arrivals| - i
      {
        applies, begun := applies + 1, changes;
        var n := if i < |arrivals| then arrivals[i] else 0;
        requests, changes := requests + n, changes + n;
        if requests == expected {
          requests, done := 0, true;
        } else {
          expected, i := requests, i + 1;
        }
      }
    }
  }
}
