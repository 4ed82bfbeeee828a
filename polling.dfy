/**
 * The wait loop of `process_domain`: the task status is fetched again and
 * again until it reads "processing" (the results are ready) or "failed".
 * The remote service is modelled by the finite sequence of replies it gives
 * to successive status requests.
 */
module Polling {
  import opened Wrappers

  /** The status the loop treats as finished with results. */
  const ReadyStatus: string := "processing"

  /** The status the loop treats as finished without results. */
  const FailedStatus: string := "failed"

  /** One dictionary of the `subdomains` list; `None` when it has no `subdomain` key. */
  datatype SubdomainEntry = SubdomainEntry(subdomain: Option<string>)

  /**
   * The JSON body of a task-status reply: its `status` value (`None` when the
   * key is missing) and its `subdomains` list (`None` when the key is missing).
   */
  datatype TaskStatus = TaskStatus(status: Option<string>, subdomains: Option<seq<SubdomainEntry>>)

  /** What one call of `get_task_status` gives: a decoded body, or an exception (a non-200 reply, a transport fault). */
  datatype StatusReply = Reply(body: TaskStatus) | RequestFailed

  /** How waiting for a task ends. */
  datatype PollOutcome =
    | Ready(subdomains: seq<string>)   // "processing" was seen; its subdomain names
    | ScanFailed                       // "failed" was seen
    | Raised                           // an exception left the loop
    | StillWaiting                     // the replies ran out before a terminal one

  /** What one pass of the loop does with a reply. */
  datatype Step = Continue | Stop(outcome: PollOutcome)

  /** `[sub["subdomain"] for sub in entries]`; `None` when some entry lacks the key (a `KeyError`). */
  function ExtractNames(entries: seq<SubdomainEntry>): (names: Option<seq<string>>)
    ensures names.Some? <==> forall i :: 0 <= i < |entries| ==> entries[i].subdomain.Some?
    ensures names.Some? ==> |names.value| == |entries|
    ensures names.Some? ==> forall i :: 0 <= i < |entries| ==> names.value[i] == entries[i].subdomain.value
  {
    if entries == [] then Some([])
    else match (entries[0].subdomain, ExtractNames(entries[1..]))
      case (Some(name), Some(rest)) => Some([name] + rest)
      case _ => None
  }

  /** `[sub["subdomain"] for sub in task_status.get("subdomains", [])]`. */
  function ExtractSubdomains(body: TaskStatus): (names: Option<seq<string>>)
    ensures body.subdomains.None? ==> names == Some([])
    ensures body.subdomains.Some? ==>
      var entries := body.subdomains.value;
      && (names.Some? <==> forall i :: 0 <= i < |entries| ==> entries[i].subdomain.Some?)
      && (names.Some? ==> |names.value| == |entries|)
      && (names.Some? ==> forall i :: 0 <= i < |entries| ==> names.value[i] == entries[i].subdomain.value)
  {
    match body.subdomains
    case None => Some([])
    case Some(entries) => ExtractNames(entries)
  }

  /**
   * One pass of the loop: the request or the `status` lookup may raise;
   * "processing" extracts the names (which may raise) and stops; "failed"
   * stops; every other status value keeps waiting.
   */
  function Decide(reply: StatusReply): (step: Step)
    ensures step != Stop(StillWaiting)
    ensures step == Continue <==>
      reply.Reply? && reply.body.status.Some? && reply.body.status.value != ReadyStatus && reply.body.status.value != FailedStatus
  {
    match reply
    case RequestFailed => Stop(Raised)
    case Reply(body) =>
      match body.status
      case None => Stop(Raised)
      case Some(status) =>
        if status == ReadyStatus then
          match ExtractSubdomains(body)
          case Some(names) => Stop(Ready(names))
          case None => Stop(Raised)
        else if status == FailedStatus then Stop(ScanFailed)
        else Continue
  }

  /** The outcome of the first reply that stops the loop. */
  function FirstStop(replies: seq<StatusReply>): PollOutcome {
    if replies == [] then StillWaiting
    else match Decide(replies[0])
      case Stop(outcome) => outcome
      case Continue => FirstStop(replies[1..])
  }

  /** A reply that keeps waiting is skipped over. */
  lemma FirstStopSkip(replies: seq<StatusReply>, p: nat)
    requires p < |replies| && Decide(replies[p]) == Continue
    ensures FirstStop(replies[p..]) == FirstStop(replies[p + 1..])
  {
    assert replies[p..][0] == replies[p] && replies[p..][1..] == replies[p + 1..];
  }

  /**
   * `while True:` with `break`, over the replies the service gives. `polls`
   * counts the status requests made. The loop stops at the first reply that
   * is terminal ("processing", "failed", or one that raises) and ignores the
   * rest; every earlier reply kept it waiting. Without a terminal reply it
   * uses them all and is still waiting.
   */
  method WaitForTask(replies: seq<StatusReply>) returns (outcome: PollOutcome, polls: nat)
    ensures polls <= |replies|
    ensures outcome == FirstStop(replies)
    ensures forall j :: 0 <= j < polls && (outcome == StillWaiting || j < polls - 1) ==> Decide(replies[j]) == Continue
    ensures outcome == StillWaiting ==> polls == |replies|
    ensures outcome != StillWaiting ==> 0 < polls && Decide(replies[polls - 1]) == Stop(outcome)
  {
    outcome := StillWaiting;
    polls := 0;
    while polls < |replies|
      invariant polls <= |replies|
      invariant forall j :: 0 <= j < polls ==> Decide(replies[j]) == Continue
      invariant FirstStop(replies) == FirstStop(replies[polls..])
    {
      var reply := replies[polls];
      assert replies[polls..][0] == reply;
      polls := polls + 1;
      if reply.RequestFailed? {
        outcome := Raised;
        break;
      }
      var taskStatus := reply.body;
      if taskStatus.status.None? {
        outcome := Raised;
        break;
      }
      var status := taskStatus.status.value;
      if status == ReadyStatus {
        var subdomains := ExtractSubdomains(taskStatus);
        outcome := if subdomains.Some? then Ready(subdomains.value) else Raised;
        break;
      } else if status == FailedStatus {
        outcome := ScanFailed;
        break;
      }
      FirstStopSkip(replies, polls - 1);
    }
    if outcome == StillWaiting {
      assert replies[polls..] == [];
    }
  }

  /** Once a reply has stopped the loop, later replies make no difference. */
  lemma {:induction false} FirstStopIgnoresLater(replies: seq<StatusReply>, later: seq<StatusReply>)
    requires FirstStop(replies) != StillWaiting
    ensures FirstStop(replies + later) == FirstStop(replies)
  {
    assert (replies + later)[0] == replies[0];
    if Decide(replies[0]) == Continue {
      assert (replies + later)[1..] == replies[1..] + later;
      FirstStopIgnoresLater(replies[1..], later);
    }
  }

  /** Replies that keep waiting, whatever their status text, are passed over. */
  lemma {:induction false} FirstStopSkipsWaiting(waiting: seq<StatusReply>, rest: seq<StatusReply>)
    requires forall j :: 0 <= j < |waiting| ==> Decide(waiting[j]) == Continue
    ensures FirstStop(waiting + rest) == FirstStop(rest)
  {
    if waiting != [] {
      assert (waiting + rest)[0] == waiting[0];
      assert (waiting + rest)[1..] == waiting[1..] + rest;
      FirstStopSkipsWaiting(waiting[1..], rest);
    } else {
      assert waiting + rest == rest;
    }
  }

  /**
   * The loop ends with results exactly when the first terminal reply reads
   * "processing" and its names can be extracted: there is a `k` such that
   * every reply before `k` keeps waiting and reply `k` is that one.
   */
  lemma {:induction false} FirstStopReady(replies: seq<StatusReply>, names: seq<string>) returns (k: nat)
    requires FirstStop(replies) == Ready(names)
    ensures k < |replies| && forall j :: 0 <= j < k ==> Decide(replies[j]) == Continue
    ensures replies[k].Reply? && replies[k].body.status == Some(ReadyStatus)
    ensures ExtractSubdomains(replies[k].body) == Some(names)
  {
    if Decide(replies[0]) == Continue {
      var k' := FirstStopReady(replies[1..], names);
      k := k' + 1;
      forall j | 0 <= j < k ensures Decide(replies[j]) == Continue {
        if j > 0 { assert replies[j] == replies[1..][j - 1]; }
      }
    } else {
      k := 0;
    }
  }
}
