/** One task over its candidate nodes (backend/app/services/orchestrator.py): an execution
    row per attempt, until a node succeeds or the attempts run out. */
module TaskDispatch {
  import opened Prelude

  datatype TaskStatus = Queued | Assigned | Running | Succeeded | Failed

  datatype ExecutionStatus = RUNNING | SUCCEEDED | FAILED

  datatype Execution = Execution(
    node: nat, attempt: nat, status: ExecutionStatus, output: Option<string>, error: Option<string>)

  /** What becomes of the dispatch to one node. */
  datatype Dispatched =
    | NoModels
    | TransportError(error: string)
    | Answered(succeeded: bool, output: Option<string>, reported: Option<string>)
    | Escaped

  datatype Result = Result(output: Option<string>, node: nat)

  /** What one commit stores. */
  datatype Snapshot = Snapshot(
    status: TaskStatus, executions: seq<Execution>, result: Option<Result>, error: Option<string>)

  type Node = string

  predicate Fails(d: Dispatched) {
    d.NoModels? || d.TransportError? || (d.Answered? && !d.succeeded)
  }

  /** The row an attempt leaves behind; an exception nothing handles leaves it running. */
  function RowOf(k: nat, d: Dispatched): Execution {
    match d
    case NoModels => Execution(k, k + 1, FAILED, None, Some("node advertises no models"))
    case TransportError(error) => Execution(k, k + 1, FAILED, None, Some(error))
    case Answered(true, output, _) => Execution(k, k + 1, SUCCEEDED, output, None)
    case Answered(false, _, error) => Execution(k, k + 1, FAILED, None, error)
    case Escaped => Execution(k, k + 1, RUNNING, None, None)
  }

  function Rows(dispatch: nat -> Dispatched, n: nat): seq<Execution> {
    seq(n, k requires 0 <= k < n => RowOf(k, dispatch(k)))
  }

  function LastError(node: Node, d: Dispatched): string {
    "node " + node + ": " +
    match d
    case NoModels => "no models available"
    case TransportError(error) => error
    case Answered(_, _, error) => if error.Some? then error.value else "agent reported failure"
    case Escaped => ""
  }

  /** The error of a task that found no node, or failed on all it was let try. */
  function FinalError(nodes: seq<Node>, dispatch: nat -> Dispatched, limit: nat): string
    requires limit <= |nodes|
  {
    if nodes == [] then "No compatible online node"
    else
      "all attempts failed; last: "
      + if limit == 0 then "unknown" else LastError(nodes[limit - 1], dispatch(limit - 1))
  }

  function Limit(nodes: seq<Node>, maxAttempts: nat): nat {
    if |nodes| <= maxAttempts then |nodes| else maxAttempts
  }

  /** The first attempt from k on that does not fail; the limit if all do. */
  function FirstEnd(dispatch: nat -> Dispatched, k: nat, limit: nat): (e: nat)
    requires k <= limit
    ensures k <= e <= limit
    ensures forall j :: k <= j < e ==> Fails(dispatch(j))
    ensures e < limit ==> !Fails(dispatch(e))
    decreases limit - k
  {
    if k == limit || !Fails(dispatch(k)) then k else FirstEnd(dispatch, k + 1, limit)
  }

  // ----- what every committed state satisfies -------------------------------------------------------

  /** Executions are numbered in order and only the last can be open, while the task is
      running; a task that ended has none open, and succeeded exactly if its last one did. */
  ghost predicate Kept(s: Snapshot) {
    && (forall k :: 0 <= k < |s.executions| ==> s.executions[k].node == k && s.executions[k].attempt == k + 1)
    && (forall k :: 0 <= k < |s.executions| - 1 ==> s.executions[k].status == FAILED)
    && (s.status == Succeeded ==> s.executions != [] && s.executions[|s.executions| - 1].status == SUCCEEDED)
    && (s.status == Failed ==> forall k :: 0 <= k < |s.executions| ==> s.executions[k].status == FAILED)
    && (s.executions != [] && s.executions[|s.executions| - 1].status == RUNNING ==> s.status == Running)
  }

  ghost predicate AllKept(commits: seq<Snapshot>) {
    forall k :: 0 <= k < |commits| ==> Kept(commits[k])
  }

  lemma OneMoreKept(commits: seq<Snapshot>, s: Snapshot)
    requires AllKept(commits) && Kept(s)
    ensures AllKept(commits + [s])
  {
    hide Kept;
  }

  /** The rows of n attempts of which all but the last failed. */
  lemma RowsAreKept(dispatch: nat -> Dispatched, n: nat, s: Snapshot)
    requires s.executions == Rows(dispatch, n) && forall j :: 0 <= j < n - 1 ==> Fails(dispatch(j))
    requires s.status == Succeeded ==> n > 0 && RowOf(n - 1, dispatch(n - 1)).status == SUCCEEDED
    requires s.status == Failed ==> n == 0 || Fails(dispatch(n - 1))
    requires n > 0 && dispatch(n - 1).Escaped? ==> s.status == Running
    ensures Kept(s)
  {
    forall k | 0 <= k < n
      ensures s.executions[k] == RowOf(k, dispatch(k)) && (Fails(dispatch(k)) ==> s.executions[k].status == FAILED)
    {
    }
  }

  /** The row of one execution tells what became of the dispatch. */
  predicate Tells(row: Execution, k: nat, d: Dispatched) {
    && row.node == k && row.attempt == k + 1
    && (row.status == RUNNING <==> d.Escaped?)
    && (row.status == SUCCEEDED <==> d.Answered? && d.succeeded)
    && row.output == (if d.Answered? && d.succeeded then d.output else None)
    && (d.TransportError? ==> row.error == Some(d.error))
    && (d.Answered? ==> row.error == if d.succeeded then None else d.reported)
  }

  ghost predicate AllTell(rows: seq<Execution>, dispatch: nat -> Dispatched) {
    forall k :: 0 <= k < |rows| ==> Tells(rows[k], k, dispatch(k))
  }

  /** What the rows look like when the loop is over. */
  lemma CourseIs(dispatch: nat -> Dispatched, limit: nat)
    ensures var e := FirstEnd(dispatch, 0, limit);
      var rows := Rows(dispatch, if e < limit then e + 1 else limit);
      && AllTell(rows, dispatch)
      && (forall k :: 0 <= k < |rows| - 1 ==> rows[k].status == FAILED)
      && (rows == [] <==> limit == 0)
      && (rows != [] ==>
            var last := rows[|rows| - 1];
            && (last.status == FAILED <==> e == limit)
            && (last.status == SUCCEEDED <==> e < limit && !dispatch(e).Escaped?))
  {
    var e := FirstEnd(dispatch, 0, limit);
    var rows := Rows(dispatch, if e < limit then e + 1 else limit);
    hide FirstEnd;
    forall k | 0 <= k < |rows|
      ensures Tells(rows[k], k, dispatch(k))
    {
      assert rows[k] == RowOf(k, dispatch(k));
    }
  }

  lemma OpenRowIsKept(dispatch: nat -> Dispatched, k: nat, s: Snapshot)
    requires s.executions == Rows(dispatch, k) + [RowOf(k, Escaped)] && s.status == Running
    requires forall j :: 0 <= j < k ==> Fails(dispatch(j))
    ensures Kept(s)
  {
    forall j | 0 <= j < k
      ensures s.executions[j] == RowOf(j, dispatch(j)) && s.executions[j].status == FAILED
    {
    }
  }

  lemma EndIs(dispatch: nat -> Dispatched, k: nat, limit: nat)
    requires k <= limit && (forall j :: 0 <= j < k ==> Fails(dispatch(j))) && (k == limit || !Fails(dispatch(k)))
    ensures FirstEnd(dispatch, 0, limit) == k
  {
    hide FirstEnd, Fails;
  }

  class TaskRun {
    var status: TaskStatus
    var executions: seq<Execution>
    var result: Option<Result>
    var error: Option<string>
    ghost var commits: seq<Snapshot>

    ghost function State(): Snapshot
      reads this
    {
      Snapshot(status, executions, result, error)
    }

    /** submit_task commits the new task as queued. */
    constructor ()
      ensures State() == Snapshot(Queued, [], None, None) && AllKept(commits)
    {
      status, executions, result, error := Queued, [], None, None;
      commits := [];
      new;
      commits := [State()];
    }

    method Commit()
      requires Kept(State()) && AllKept(commits)
      modifies this`commits
      ensures AllKept(commits)
    {
      OneMoreKept(commits, State());
      commits := commits + [State()];
    }

    /** _finish */
    method Finish(status: TaskStatus, result: Option<Result>, error: Option<string>)
      requires Kept(Snapshot(status, executions, result, error)) && AllKept(commits)
      modifies this`status, this`result, this`error, this`commits
      ensures State() == Snapshot(status, old(executions), result, error) && AllKept(commits)
    {
      this.status, this.result, this.error := status, result, error;
      Commit();
    }

    /** _finish_execution: the open row is closed in place. */
    method FinishExecution(row: Execution)
      requires executions != [] && AllKept(commits)
      requires Kept(State().(executions := executions[|executions| - 1 := row]))
      modifies this`executions, this`commits
      ensures executions == old(executions)[|old(executions)| - 1 := row] && AllKept(commits)
    {
      executions := executions[|executions| - 1 := row];
      Commit();
    }

    /** The attempt loop of _execute. */
    method Execute(nodes: seq<Node>, maxAttempts: nat, dispatch: nat -> Dispatched) returns (escaped: bool)
      requires State() == Snapshot(Queued, [], None, None) && AllKept(commits)
      modifies this
      ensures AllKept(commits) && Kept(State())
      ensures var limit := Limit(nodes, maxAttempts);
        var e := FirstEnd(dispatch, 0, limit);
        && executions == Rows(dispatch, if e < limit then e + 1 else limit)
        && (escaped <==> e < limit && dispatch(e).Escaped?)
        && (e < limit && !escaped ==>
              status == Succeeded && result == Some(Result(dispatch(e).output, e)) && error == None)
        && (e == limit ==>
              status == Failed && result == None && error == Some(FinalError(nodes, dispatch, limit)))
      ensures |executions| <= maxAttempts && |executions| <= |nodes|
      ensures AllTell(executions, dispatch)
      ensures forall k :: 0 <= k < |executions| - 1 ==> executions[k].status == FAILED
      ensures |executions| < maxAttempts && |executions| < |nodes| ==>
        executions != [] && executions[|executions| - 1].status != FAILED
      ensures status == Succeeded <==> executions != [] && executions[|executions| - 1].status == SUCCEEDED
      ensures status == Failed <==> executions == [] || executions[|executions| - 1].status == FAILED
    {
      CourseIs(dispatch, Limit(nodes, maxAttempts));
      hide AllTell;
      if nodes == [] {
        Finish(Failed, None, Some("No compatible online node"));
        return false;
      }
      var lastError := "unknown";
      var limit := Limit(nodes, maxAttempts);
      hide FirstEnd, LastError, Rows, RowOf, Kept, Fails;
      assert Rows(dispatch, 0) == [] by { NoRows(dispatch); }
      for k := 0 to limit
        invariant executions == Rows(dispatch, k) && forall j :: 0 <= j < k ==> Fails(dispatch(j))
        invariant status == Queued || status == Running
        invariant result == None && error == None && AllKept(commits)
        invariant lastError == if k == 0 then "unknown" else LastError(nodes[k - 1], dispatch(k - 1))
      {
        var d := Attempt(k, dispatch);
        if !Fails(d) {
          EndIs(dispatch, k, limit);
          return d.Escaped?;
        }
        lastError := LastError(nodes[k], d);
      }
      EndIs(dispatch, limit, limit);
      RowsAreKept(dispatch, limit, Snapshot(Failed, executions, None, Some("all attempts failed; last: " + lastError)));
      Finish(Failed, None, Some("all attempts failed; last: " + lastError));
      escaped := false;
    }

    /** One attempt: its row is committed as running, and closed when the node answers. */
    method Attempt(k: nat, dispatch: nat -> Dispatched) returns (d: Dispatched)
      requires executions == Rows(dispatch, k) && (forall j :: 0 <= j < k ==> Fails(dispatch(j)))
      requires result == None && error == None && AllKept(commits)
      modifies this
      ensures d == dispatch(k) && executions == Rows(dispatch, k + 1) && AllKept(commits) && Kept(State())
      ensures if d.Answered? && d.succeeded
              then status == Succeeded && result == Some(Result(d.output, k)) && error == None
              else status == Running && result == None && error == None
    {
      hide Kept;
      status := Assigned;
      executions := executions + [RowOf(k, Escaped)];
      status := Running;
      OpenRowIsKept(dispatch, k, State());
      Commit();
      d := dispatch(k);
      assert Rows(dispatch, k + 1) == Rows(dispatch, k) + [RowOf(k, d)] == executions[k := RowOf(k, d)];
      RowsAreKept(dispatch, k + 1, State().(executions := Rows(dispatch, k + 1)));
      hide Rows, RowOf;
      if !d.Escaped? {
        FinishExecution(RowOf(k, d));
        if d.Answered? && d.succeeded {
          SuccessIsKept(dispatch, k, Snapshot(Succeeded, executions, Some(Result(d.output, k)), None));
          Finish(Succeeded, Some(Result(d.output, k)), None);
        }
      }
    }
  }

  lemma NoRows(dispatch: nat -> Dispatched)
    ensures Rows(dispatch, 0) == []
  {
  }

  lemma SuccessIsKept(dispatch: nat -> Dispatched, k: nat, s: Snapshot)
    requires s.executions == Rows(dispatch, k + 1) && (forall j :: 0 <= j < k ==> Fails(dispatch(j)))
    requires s.status == Succeeded && dispatch(k).Answered? && dispatch(k).succeeded
    ensures Kept(s)
  {
    RowsAreKept(dispatch, k + 1, s);
  }
}
