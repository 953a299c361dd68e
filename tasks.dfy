/** tasks.py: the task that follows the registration of one article's XML in
    SciELO Manager and, once it succeeded, writes the assigned AID back to
    ArticleMeta.

    The answers of getTaskResult change from one call to the next, so they are
    given as the sequence of replies the service gives to successive polls.
    When that sequence runs out while the task is still pending, the model
    stops with StillPolling: the source has no timeout and would keep asking. */
module Tasks {
  import opened Common
  import opened Clients

  /** The reply of getTaskResult. */
  datatype TaskResult = TaskResult(status: int, value: string)

  /** The names the task logs for each status code. */
  const StatusNames: seq<string> := ["PENDING", "STARTED", "RETRY", "FAILURE", "SUCCESS"]

  /** PENDING, STARTED and RETRY: sleep and ask again. */
  predicate Pending(status: int) {
    0 <= status <= 2
  }

  /** The registration succeeded: the value is the AID. */
  const SUCCESS: int := 4

  /** Python list indexing accepts negative indices from the end: StatusNames[s]
      exists iff -5 <= s < 5. */
  predicate Named(status: int) {
    -|StatusNames| <= status < |StatusNames|
  }

  /** The effects of the task on the outside world, in order. */
  datatype Call =
    | AddArticle(xml: string)
    | GetTaskResult(taskId: string)
    | Sleep(seconds: nat)
    | SetAid(code: string, collection: string, aid: string)

  /** How the task ended. */
  datatype Ending =
    | Registered(aid: string)              // status 4, AID written back
    | Rejected(status: int, value: string) // any other status: logged, nothing written
    | Crashed(error: Exception)            // an exception left the task
    | StillPolling                         // the replies ran out while still pending

  datatype Tracking = Tracking(calls: seq<Call>, ending: Ending)

  /** What the task does with the reply of one poll that is not pending. */
  function Settle(am: ArticleMetaRpc, data: Article, reply: Reply<TaskResult>): Tracking
  {
    match reply
    case Raised => Tracking([], Crashed(RemoteFailure))
    case Returned(r) =>
      if r.status == SUCCESS then
        var written := am.setAid(data.publisherId, data.collectionAcronym, r.value);
        Tracking([SetAid(data.publisherId, data.collectionAcronym, r.value)],
                 if written.Raised? then Crashed(RemoteFailure) else Registered(r.value))
      else if Named(r.status) then Tracking([], Rejected(r.status, r.value))
      else Tracking([], Crashed(IndexError))  // the log line indexes StatusNames
  }

  /** The poll loop over the successive replies of getTaskResult. */
  function Poll(am: ArticleMetaRpc, data: Article, taskId: string, polls: seq<Reply<TaskResult>>): (t: Tracking)
    ensures forall j :: 0 <= j < |t.calls| ==> !t.calls[j].AddArticle?
    decreases |polls|
  {
    if polls == [] then Tracking([], StillPolling)
    else if polls[0].Returned? && Pending(polls[0].value.status) then
      var rest := Poll(am, data, taskId, polls[1..]);
      Tracking([GetTaskResult(taskId), Sleep(1)] + rest.calls, rest.ending)
    else
      var last := Settle(am, data, polls[0]);
      Tracking([GetTaskResult(taskId)] + last.calls, last.ending)
  }

  /** check_registry_status: submit the XML, then poll. */
  function Track(sm: ScieloManagerRpc, am: ArticleMetaRpc, data: Article, xml: string,
                 polls: seq<Reply<TaskResult>>): Tracking
  {
    match sm.addArticle(xml)
    case Raised => Tracking([AddArticle(xml)], Crashed(RemoteFailure))
    case Returned(taskId) =>
      var t := Poll(am, data, taskId, polls);
      Tracking([AddArticle(xml)] + t.calls, t.ending)
  }

  /** The Celery task check_registry_status, over the given poll replies. */
  method CheckRegistryStatus(sm: ScieloManagerRpc, am: ArticleMetaRpc, data: Article, xml: string,
                             polls: seq<Reply<TaskResult>>)
    returns (calls: seq<Call>, ending: Ending)
    ensures Tracking(calls, ending) == Track(sm, am, data, xml, polls)
  {
    calls := [AddArticle(xml)];
    var submitted := sm.addArticle(xml);
    if submitted.Raised? {
      return calls, Crashed(RemoteFailure);
    }
    var taskId := submitted.value;
    var i := 0;
    while i < |polls|
      invariant 0 <= i <= |polls|
      invariant Track(sm, am, data, xml, polls) ==
        var rest := Poll(am, data, taskId, polls[i..]);
        Tracking(calls + rest.calls, rest.ending)
    {
      calls := calls + [GetTaskResult(taskId)];
      var result := polls[i];
      if result.Raised? {
        return calls, Crashed(RemoteFailure);
      }
      if Pending(result.value.status) {
        calls := calls + [Sleep(1)];
        i := i + 1;
        continue;
      }
      if result.value.status == SUCCESS {
        calls := calls + [SetAid(data.publisherId, data.collectionAcronym, result.value.value)];
        var written := am.setAid(data.publisherId, data.collectionAcronym, result.value.value);
        if written.Raised? {
          return calls, Crashed(RemoteFailure);
        }
        return calls, Registered(result.value.value);
      }
      if !Named(result.value.status) {
        return calls, Crashed(IndexError);
      }
      return calls, Rejected(result.value.status, result.value.value);
    }
    ending := StillPolling;
  }

  // ---------------------------------------------------------------------------
  // What the task promises

  /** Index of the first poll whose reply is not pending (|polls| if none). */
  function FirstSettled(polls: seq<Reply<TaskResult>>): (n: nat)
    ensures n <= |polls|
    ensures forall j :: 0 <= j < n ==> polls[j].Returned? && Pending(polls[j].value.status)
    ensures n < |polls| ==> !(polls[n].Returned? && Pending(polls[n].value.status))
  {
    if polls == [] then 0
    else if polls[0].Returned? && Pending(polls[0].value.status) then 1 + FirstSettled(polls[1..])
    else 0
  }

  /** How many calls of one kind a run made. */
  function Count(calls: seq<Call>, kind: Call -> bool): nat {
    if calls == [] then 0 else (if kind(calls[0]) then 1 else 0) + Count(calls[1..], kind)
  }

  predicate IsPoll(c: Call) { c.GetTaskResult? }
  predicate IsSleep(c: Call) { c.Sleep? }
  predicate IsWrite(c: Call) { c.SetAid? }

  lemma {:induction false} CountAppend(a: seq<Call>, b: seq<Call>, kind: Call -> bool)
    ensures Count(a + b, kind) == Count(a, kind) + Count(b, kind)
  {
    if a != [] {
      assert (a + b)[1..] == a[1..] + b;
      CountAppend(a[1..], b, kind);
    } else {
      assert a + b == b;
    }
  }

  /** The poll loop asks once per pending reply and once more for the reply
      that settles it; it sleeps exactly once per pending reply; it writes back
      at most once, and only when the settling reply is SUCCESS. */
  lemma {:induction false} PollCounts(am: ArticleMetaRpc, data: Article, taskId: string, polls: seq<Reply<TaskResult>>)
    ensures var t := Poll(am, data, taskId, polls);
      var n := FirstSettled(polls);
      && Count(t.calls, IsSleep) == n
      && Count(t.calls, IsPoll) == (if n == |polls| then n else n + 1)
      && Count(t.calls, IsWrite) == (if n < |polls| && polls[n].Returned? && polls[n].value.status == SUCCESS then 1 else 0)
      && (t.ending == StillPolling <==> n == |polls|)
    decreases |polls|
  {
    var t := Poll(am, data, taskId, polls);
    if polls == [] {
    } else if polls[0].Returned? && Pending(polls[0].value.status) {
      var rest := Poll(am, data, taskId, polls[1..]);
      PollCounts(am, data, taskId, polls[1..]);
      CountAppend([GetTaskResult(taskId), Sleep(1)], rest.calls, IsSleep);
      CountAppend([GetTaskResult(taskId), Sleep(1)], rest.calls, IsPoll);
      CountAppend([GetTaskResult(taskId), Sleep(1)], rest.calls, IsWrite);
    } else {
      var last := Settle(am, data, polls[0]);
      CountAppend([GetTaskResult(taskId)], last.calls, IsSleep);
      CountAppend([GetTaskResult(taskId)], last.calls, IsPoll);
      CountAppend([GetTaskResult(taskId)], last.calls, IsWrite);
    }
  }

  /** addArticle is called exactly once, before anything else. */
  lemma SubmittedOnceFirst(sm: ScieloManagerRpc, am: ArticleMetaRpc, data: Article, xml: string,
                           polls: seq<Reply<TaskResult>>)
    ensures var t := Track(sm, am, data, xml, polls);
      && |t.calls| >= 1 && t.calls[0] == AddArticle(xml)
      && forall j :: 1 <= j < |t.calls| ==> !t.calls[j].AddArticle?
  {
  }

  /** The write-back, when there is one, is the last call and carries the
      article's publisher id, its collection and the value of the SUCCESS reply;
      there is one only when the first reply that is not pending is SUCCESS. */
  lemma {:induction false} WriteBackIsLast(am: ArticleMetaRpc, data: Article, taskId: string,
                                           polls: seq<Reply<TaskResult>>, j: nat)
    requires var t := Poll(am, data, taskId, polls); j < |t.calls| && t.calls[j].SetAid?
    ensures var t := Poll(am, data, taskId, polls);
      var n := FirstSettled(polls);
      && j == |t.calls| - 1
      && n < |polls| && polls[n].Returned? && polls[n].value.status == SUCCESS
      && t.calls[j] == SetAid(data.publisherId, data.collectionAcronym, polls[n].value.value)
    decreases |polls|
  {
    if polls != [] && polls[0].Returned? && Pending(polls[0].value.status) {
      var t := Poll(am, data, taskId, polls);
      var rest := Poll(am, data, taskId, polls[1..]);
      assert t.calls == [GetTaskResult(taskId), Sleep(1)] + rest.calls;
      assert j >= 2 && rest.calls[j - 2] == t.calls[j];
      WriteBackIsLast(am, data, taskId, polls[1..], j - 2);
      assert FirstSettled(polls) == 1 + FirstSettled(polls[1..]);
    }
  }

  /** Replies with no status other than pending never end the task by themselves:
      there is no timeout, only more polls and sleeps. */
  lemma {:induction false} NoTimeout(am: ArticleMetaRpc, data: Article, taskId: string, polls: seq<Reply<TaskResult>>)
    requires forall j :: 0 <= j < |polls| ==> polls[j].Returned? && Pending(polls[j].value.status)
    ensures var t := Poll(am, data, taskId, polls);
      && t.ending == StillPolling
      && |t.calls| == 2 * |polls|
      && forall j :: 0 <= j < |t.calls| ==> t.calls[j] == (if j % 2 == 0 then GetTaskResult(taskId) else Sleep(1))
    decreases |polls|
  {
    if polls != [] {
      NoTimeout(am, data, taskId, polls[1..]);
      var t := Poll(am, data, taskId, polls);
      var rest := Poll(am, data, taskId, polls[1..]);
      forall j | 2 <= j < |t.calls|
        ensures t.calls[j] == (if j % 2 == 0 then GetTaskResult(taskId) else Sleep(1))
      {
        assert t.calls[j] == rest.calls[j - 2];
      }
    }
  }

  /** Three pending replies, then SUCCESS with AID "AID12345": four polls,
      three sleeps, one write-back of that AID. */
  lemma RegisteredAfterThreePending(sm: ScieloManagerRpc, am: ArticleMetaRpc, data: Article, xml: string)
    requires sm.addArticle(xml) == Returned("task-1")
    requires am.setAid(data.publisherId, data.collectionAcronym, "AID12345").Returned?
    ensures var polls := [Returned(TaskResult(0, "")), Returned(TaskResult(1, "")),
                          Returned(TaskResult(2, "")), Returned(TaskResult(4, "AID12345"))];
      Track(sm, am, data, xml, polls) == Tracking(
        [AddArticle(xml),
         GetTaskResult("task-1"), Sleep(1), GetTaskResult("task-1"), Sleep(1),
         GetTaskResult("task-1"), Sleep(1), GetTaskResult("task-1"),
         SetAid(data.publisherId, data.collectionAcronym, "AID12345")],
        Registered("AID12345"))
  {
    var polls := [Returned(TaskResult(0, "")), Returned(TaskResult(1, "")),
                  Returned(TaskResult(2, "")), Returned(TaskResult(4, "AID12345"))];
    assert polls[1..][1..][1..] == [Returned(TaskResult(4, "AID12345"))];
  }

  /** A FAILURE reply ends the task with nothing written back, and replies
      after it are never asked for. */
  lemma RejectedWithoutWriteBack(am: ArticleMetaRpc, data: Article, taskId: string, later: seq<Reply<TaskResult>>)
    ensures Poll(am, data, taskId, [Returned(TaskResult(3, "schema rejected"))] + later)
      == Tracking([GetTaskResult(taskId)], Rejected(3, "schema rejected"))
  {
  }
}
