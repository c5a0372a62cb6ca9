/** The blocking completion wait of an RDMA endpoint, against a device that may add completions
    between any two of its steps. */
module CompletionWait {
  import opened CompletionQueue

  datatype Status = InvalidArgument | Completed | CompletionFailed | TimedOut

  /** One direction of the endpoint: its queue, its pending count, and the count reported so far.
      The ghost fields record what happened to it since the wait began. */
  class Direction {
    var queue: Queue
    var pending: nat
    var done: nat
    ghost var initial: seq<Completion>
    ghost var arrived: seq<Completion>
    ghost var taken: seq<Completion>
    ghost var acked: nat
    ghost var fromPending: nat
    ghost var raisedBefore: nat

    /** Nothing is lost, reordered or taken beyond the request. */
    ghost predicate Kept(expected: nat)
      reads this
    {
      && initial + arrived == taken + queue.unread
      && done <= expected
      && fromPending + |taken| <= expected
    }

    /** And every event since the first drain belongs to an arrival, and is fetched or still there. */
    ghost predicate Valid(expected: nat)
      reads this
    {
      && Kept(expected) && queue.events + acked <= |arrived|
      && queue.raised == raisedBefore + queue.events + acked
    }

    /** All completions taken so far were good and counted. */
    ghost predicate Counted()
      reads this
    {
      done == fromPending + |taken| && forall c | c in taken :: c == Success
    }

    ghost predicate SawFailure()
      reads this
    {
      exists i :: 0 <= i < |taken| && taken[i] != Success
    }

    /** An arrival will raise, or has raised, an event. */
    ghost predicate Watched()
      reads this
    {
      queue.armed || queue.events > 0
    }

    /** It is safe to block: the direction is complete, or an event is pending, or it is empty and armed. */
    ghost predicate Covered(expected: nat)
      reads this
    {
      done == expected || queue.events > 0 || (queue.unread == [] && queue.armed)
    }

    /** It is safe to block, or one completion was taken since the request: what else was unread then is overlooked. */
    ghost predicate Heard(expected: nat)
      reads this
    {
      || done == expected || queue.events > 0
      || (queue.armed && queue.took <= 1 && (queue.unread == [] || queue.took == 1))
    }

    ghost predicate SameCounts(p: nat, d: nat, t: seq<Completion>, a: nat, f: nat)
      reads this
    {
      pending == p && done == d && taken == t && acked == a && fromPending == f
    }

    /** The device acts: any completions, including none, arrive. */
    method Device(ghost expected: nat)
      requires Kept(expected)
      modifies this
      ensures Kept(expected) && initial == old(initial)
      ensures old(Valid(expected)) ==> Valid(expected)
      ensures SameCounts(old(pending), old(done), old(taken), old(acked), old(fromPending))
      ensures old(Counted()) ==> Counted()
      ensures old(Watched()) ==> Watched()
      ensures old(Covered(expected)) ==> Covered(expected)
      ensures old(Heard(expected)) ==> Heard(expected)
      ensures queue.took == old(queue.took) && raisedBefore == old(raisedBefore)
    {
      var added: seq<Completion> := *;
      assert initial + (arrived + added) == initial + arrived + added;
      queue := Arrive(queue, added);
      arrived := arrived + added;
    }

    /** The first drain: events left over from earlier calls are dropped and the records start. */
    method StartDrained()
      modifies this
      ensures queue == old(queue).(events := 0) && pending == old(pending) && done == 0
      ensures initial == old(queue.unread) && arrived == taken == [] && acked == fromPending == 0
      ensures raisedBefore == old(queue.raised)
    {
      queue := queue.(events := 0);
      done := 0;
      initial, arrived, taken, acked, fromPending, raisedBefore := queue.unread, [], [], 0, 0, queue.raised;
    }

    method ConsumePending(expected: nat)
      requires Kept(expected) && Counted()
      modifies this`pending, this`done, this`fromPending
      ensures Kept(expected) && Counted()
      ensures old(Valid(expected)) ==> Valid(expected)
      ensures pending == 0 || done == expected
      ensures fromPending - old(fromPending) == old(pending) - pending == done - old(done) >= 0
      ensures old(Covered(expected)) ==> Covered(expected)
      ensures old(Heard(expected)) ==> Heard(expected)
    {
      while done < expected && pending > 0
        invariant Kept(expected) && Counted()
        invariant fromPending - old(fromPending) == old(pending) - pending == done - old(done) >= 0
        invariant old(Covered(expected)) ==> Covered(expected)
        invariant old(Heard(expected)) ==> Heard(expected)
      {
        pending := pending - 1;
        done := done + 1;
        fromPending := fromPending + 1;
      }
    }

    method RequestNotify(expected: nat)
      requires Valid(expected)
      modifies this
      ensures Valid(expected) && Watched() && queue.took == 0
      ensures initial == old(initial) && raisedBefore == old(raisedBefore)
      ensures SameCounts(old(pending), old(done), old(taken), old(acked), old(fromPending))
      ensures old(Counted()) ==> Counted()
    {
      Device(expected);
      queue := Arm(queue);
    }

    /** `poll_one_cq`: take at most one completion, and only if one is still needed. */
    method PollOne(expected: nat) returns (ok: bool)
      requires Valid(expected) && Counted()
      modifies this
      ensures Valid(expected) && initial == old(initial) && acked == old(acked) && raisedBefore == old(raisedBefore)
      ensures fromPending == old(fromPending) && pending == old(pending)
      ensures ok ==> Counted()
      ensures !ok ==> SawFailure() && |taken| > |old(taken)|
      ensures |taken| >= |old(taken)| && done >= old(done)
      ensures ok ==> done == expected || |taken| > |old(taken)| || |taken| >= |initial|
      ensures old(Watched()) ==> Watched()
      ensures ok && old(Watched() && queue.took == 0) ==> Heard(expected)
      ensures ok && old(Watched()) && expected - old(done) <= 1 ==> Covered(expected)
      ensures ok && (old(acked) <= |old(taken)| + 1) && old(done) < expected ==> acked <= |taken|
      ensures old(acked) <= |old(taken)| ==> acked <= |taken|
    {
      if done >= expected {
        return true;
      }
      Device(expected);
      if queue.unread == [] {
        assert |initial + arrived| == |taken|;
        return true;
      }
      var completion := queue.unread[0];
      taken := taken + [completion];
      queue := Take(queue);
      if completion != Success {
        assert taken[|taken| - 1] != Success;
        return false;
      }
      done := done + 1;
      ok := true;
    }

    /** Fetch and drop the events left on the channel. */
    method Drain(expected: nat)
      requires Valid(expected)
      modifies this`queue, this`acked
      ensures Valid(expected) && queue == old(queue).(events := 0) && acked == old(acked + queue.events)
    {
      acked := acked + queue.events;
      queue := queue.(events := 0);
    }

    /** A non-blocking call starts its records without draining the channel. */
    method Start()
      modifies this
      ensures queue == old(queue) && pending == old(pending) && done == 0
      ensures initial == queue.unread && arrived == taken == [] && fromPending == 0
      ensures Kept(0) && Counted()
    {
      done := 0;
      initial, arrived, taken, acked, fromPending, raisedBefore := queue.unread, [], [], 0, 0, queue.raised;
    }

    /** `poll_available`: take completions until enough are counted or none is left. Everything that was queued
        when the call began is taken unless the maximum is reached first. */
    method PollAvailable(maximum: nat) returns (ok: bool)
      requires Kept(maximum) && Counted()
      modifies this
      ensures Kept(maximum) && initial == old(initial)
      ensures fromPending == old(fromPending) && pending == old(pending)
      ensures ok ==> Counted() && (done == maximum || |taken| >= |initial|)
      ensures !ok ==> SawFailure()
    {
      while done < maximum
        invariant Kept(maximum) && Counted() && initial == old(initial)
        invariant fromPending == old(fromPending) && pending == old(pending)
        decreases maximum - done
      {
        Device(maximum);
        if queue.unread == [] {
          assert |initial + arrived| == |taken|;
          return true;
        }
        var completion := queue.unread[0];
        taken := taken + [completion];
        queue := Take(queue);
        if completion != Success {
          assert taken[|taken| - 1] != Success;
          return false;
        }
        done := done + 1;
      }
      ok := true;
    }

    method GetAndAckEvent(expected: nat)
      requires Valid(expected) && queue.events > 0
      modifies this`queue, this`acked
      ensures Valid(expected) && acked == old(acked) + 1
      ensures old(Counted()) ==> Counted()
    {
      queue := queue.(events := queue.events - 1);
      acked := acked + 1;
    }
  }

  /** The two directions of one endpoint during a wait. */
  ghost predicate Waiting(send: Direction, recv: Direction, sends: nat, recvs: nat)
    reads send, recv
  {
    send != recv && send.Valid(sends) && recv.Valid(recvs) && send.Counted() && recv.Counted()
  }

  /** Every fetched event is matched by a completion that was taken. */
  ghost predicate Paced(send: Direction, recv: Direction)
    reads send, recv
  {
    send.acked <= |send.taken| && recv.acked <= |recv.taken|
  }

  /** A direction goes on from the old state: the same starting completions, no record dropped, and
      the pending count only ever spent on the request. */
  twostate predicate Continues(d: Direction, expected: nat)
    reads d
  {
    && d.Valid(expected) && d.initial == old(d.initial) && d.raisedBefore == old(d.raisedBefore)
    && d.fromPending + d.pending == old(d.fromPending + d.pending)
    && |d.taken| >= |old(d.taken)| && d.done >= old(d.done) && d.acked >= old(d.acked)
  }

  /** An incomplete direction was polled: something was taken, or everything that was queued at the start already is. */
  twostate predicate Polls(d: Direction, expected: nat)
    reads d
  {
    d.done == expected || |d.taken| > |old(d.taken)| || |d.taken| >= |d.initial|
  }

  /** `poll_incomplete_cqs_once` */
  method PollIncompleteOnce(send: Direction, recv: Direction, sends: nat, recvs: nat) returns (ok: bool)
    requires Waiting(send, recv, sends, recvs)
    modifies send, recv
    ensures Continues(send, sends) && Continues(recv, recvs)
    ensures send.pending == old(send.pending) && recv.pending == old(recv.pending)
    ensures send.acked == old(send.acked) && recv.acked == old(recv.acked)
    ensures ok ==> Waiting(send, recv, sends, recvs)
    ensures ok ==> Polls(send, sends) && Polls(recv, recvs)
    ensures ok && old(send.Watched()) ==> send.Watched()
    ensures ok && old(recv.Watched()) ==> recv.Watched()
    ensures ok && old(send.Watched() && send.queue.took == 0) ==> send.Heard(sends)
    ensures ok && old(recv.Watched() && recv.queue.took == 0) ==> recv.Heard(recvs)
    ensures !ok ==> send.SawFailure() || recv.SawFailure()
    ensures !ok ==> |send.taken| + |recv.taken| > |old(send.taken)| + |old(recv.taken)|
    ensures ok && old(send.Watched()) && sends - old(send.done) <= 1 ==> send.Covered(sends)
    ensures ok && old(recv.Watched()) && recvs - old(recv.done) <= 1 ==> recv.Covered(recvs)
    ensures ok && old(send.acked <= |send.taken| + 1 && send.done < sends) ==> send.acked <= |send.taken|
    ensures ok && old(recv.acked <= |recv.taken| + 1 && recv.done < recvs) ==> recv.acked <= |recv.taken|
  {
    ok := send.PollOne(sends);
    if ok {
      ok := recv.PollOne(recvs);
    }
  }

  /** The blocking poll: it returns ready as soon as an incomplete direction has an event, and
      otherwise times out. */
  method Block(send: Direction, recv: Direction, sends: nat, recvs: nat) returns (ready: bool)
    requires Waiting(send, recv, sends, recvs)
    modifies send, recv
    ensures Waiting(send, recv, sends, recvs) && Continues(send, sends) && Continues(recv, recvs)
    ensures send.done == old(send.done) && send.acked == old(send.acked)
    ensures recv.done == old(recv.done) && recv.acked == old(recv.acked)
    ensures send.taken == old(send.taken) && recv.taken == old(recv.taken)
    ensures old(send.Watched()) ==> send.Watched()
    ensures old(recv.Watched()) ==> recv.Watched()
    ensures old(send.Covered(sends)) ==> send.Covered(sends)
    ensures old(recv.Covered(recvs)) ==> recv.Covered(recvs)
    ensures old(send.Heard(sends)) ==> send.Heard(sends)
    ensures old(recv.Heard(recvs)) ==> recv.Heard(recvs)
    ensures ready <==> (send.done < sends && send.queue.events > 0) || (recv.done < recvs && recv.queue.events > 0)
  {
    send.Device(sends);
    recv.Device(recvs);
    ready := (send.done < sends && send.queue.events > 0) || (recv.done < recvs && recv.queue.events > 0);
  }

  /** `consume_pending` */
  method ConsumePendingBoth(send: Direction, recv: Direction, sends: nat, recvs: nat) returns (complete: bool)
    requires Waiting(send, recv, sends, recvs)
    modifies send`pending, send`done, send`fromPending, recv`pending, recv`done, recv`fromPending
    ensures Waiting(send, recv, sends, recvs) && Continues(send, sends) && Continues(recv, recvs)
    ensures complete <==> send.done == sends && recv.done == recvs
    ensures send.pending == 0 || send.done == sends
    ensures recv.pending == 0 || recv.done == recvs
    ensures old(send.Covered(sends)) ==> send.Covered(sends)
    ensures old(recv.Covered(recvs)) ==> recv.Covered(recvs)
    ensures old(send.Heard(sends)) ==> send.Heard(sends)
    ensures old(recv.Heard(recvs)) ==> recv.Heard(recvs)
  {
    send.ConsumePending(sends);
    recv.ConsumePending(recvs);
    complete := send.done >= sends && recv.done >= recvs;
  }

  datatype Step = Failed | Done | More

  /** One poll of the incomplete queues followed by the completeness test. */
  method PollStep(send: Direction, recv: Direction, sends: nat, recvs: nat) returns (step: Step)
    requires Waiting(send, recv, sends, recvs)
    modifies send, recv
    ensures Continues(send, sends) && Continues(recv, recvs)
    ensures send.acked == old(send.acked) && recv.acked == old(recv.acked)
    ensures step.Failed? ==> send.SawFailure() || recv.SawFailure()
    ensures step.Failed? ==> |send.taken| + |recv.taken| > |old(send.taken)| + |old(recv.taken)|
    ensures !step.Failed? ==> Polls(send, sends) && Polls(recv, recvs)
    ensures !step.Failed? && old(send.Watched()) ==> send.Watched()
    ensures !step.Failed? && old(recv.Watched()) ==> recv.Watched()
    ensures !step.Failed? && old(send.Watched() && send.queue.took == 0) ==> send.Heard(sends)
    ensures !step.Failed? && old(recv.Watched() && recv.queue.took == 0) ==> recv.Heard(recvs)
    ensures !step.Failed? ==> Waiting(send, recv, sends, recvs)
    ensures !step.Failed? ==> (step.Done? <==> send.done == sends && recv.done == recvs)
    ensures step.More? && old(send.Watched()) && sends - old(send.done) <= 1 ==> send.Covered(sends)
    ensures step.More? && old(recv.Watched()) && recvs - old(recv.done) <= 1 ==> recv.Covered(recvs)
    ensures !step.Failed? && old(send.acked <= |send.taken| + 1 && send.done < sends) ==> send.acked <= |send.taken|
    ensures !step.Failed? && old(recv.acked <= |recv.taken| + 1 && recv.done < recvs) ==> recv.acked <= |recv.taken|
  {
    var ok := PollIncompleteOnce(send, recv, sends, recvs);
    if !ok {
      return Failed;
    }
    var complete := ConsumePendingBoth(send, recv, sends, recvs);
    step := if complete then Done else More;
  }

  function Min(a: nat, b: nat): nat {
    if a < b then a else b
  }

  /** An incomplete direction has taken this many completions, or all that were queued at the start. */
  ghost predicate Taken(d: Direction, expected: nat, count: nat)
    reads d
  {
    d.done == expected || |d.taken| >= Min(|d.initial|, count)
  }

  /** The end of a wait without an event: the next completion will raise one, every event that was raised since the
      first drain was fetched, and nothing is unread unless a completion was taken after the queue was armed. */
  ghost predicate Listening(d: Direction, expected: nat)
    reads d
  {
    || d.done == expected
    || (&& d.queue.armed && d.queue.events == 0 && d.queue.raised == d.raisedBefore + d.acked
        && d.queue.took <= 1 && (d.queue.unread != [] ==> d.queue.took == 1))
  }

  /** The busy-poll phase: at least one pass, and `extraPasses` more before the deadline. */
  method BusyPoll(send: Direction, recv: Direction, sends: nat, recvs: nat, extraPasses: nat) returns (step: Step)
    requires Waiting(send, recv, sends, recvs)
    modifies send, recv
    ensures Continues(send, sends) && Continues(recv, recvs)
    ensures send.acked == old(send.acked) && recv.acked == old(recv.acked)
    ensures step.Failed? ==> send.SawFailure() || recv.SawFailure()
    ensures !step.Failed? ==> Waiting(send, recv, sends, recvs)
    ensures step.Done? ==> send.done == sends && recv.done == recvs
    ensures step.More? ==> Taken(send, sends, |old(send.taken)| + 1 + extraPasses)
    ensures step.More? ==> Taken(recv, recvs, |old(recv.taken)| + 1 + extraPasses)
  {
    step := PollStep(send, recv, sends, recvs);
    var left := extraPasses;
    while step.More? && left > 0
      invariant Continues(send, sends) && Continues(recv, recvs)
      invariant send.acked == old(send.acked) && recv.acked == old(recv.acked)
      invariant step.Failed? ==> send.SawFailure() || recv.SawFailure()
      invariant !step.Failed? ==> Waiting(send, recv, sends, recvs)
      invariant step.Done? ==> send.done == sends && recv.done == recvs
      invariant left <= extraPasses
      invariant step.More? ==> Taken(send, sends, |old(send.taken)| + 1 + extraPasses - left)
      invariant step.More? ==> Taken(recv, recvs, |old(recv.taken)| + 1 + extraPasses - left)
    {
      step := PollStep(send, recv, sends, recvs);
      left := left - 1;
    }
  }

  /** Arm the incomplete queues. */
  method RequestIncomplete(send: Direction, recv: Direction, sends: nat, recvs: nat)
    requires Waiting(send, recv, sends, recvs)
    modifies send, recv
    ensures Waiting(send, recv, sends, recvs) && Continues(send, sends) && Continues(recv, recvs)
    ensures send.SameCounts(old(send.pending), old(send.done), old(send.taken), old(send.acked), old(send.fromPending))
    ensures recv.SameCounts(old(recv.pending), old(recv.done), old(recv.taken), old(recv.acked), old(recv.fromPending))
    ensures send.done == sends || (send.Watched() && send.queue.took == 0)
    ensures recv.done == recvs || (recv.Watched() && recv.queue.took == 0)
  {
    if send.done < sends {
      send.RequestNotify(sends);
    }
    if recv.done < recvs {
      recv.RequestNotify(recvs);
    }
  }

  /** Fetch one event from every incomplete direction that has one. */
  method FetchEvents(send: Direction, recv: Direction, sends: nat, recvs: nat)
    requires Waiting(send, recv, sends, recvs)
    requires (send.done < sends && send.queue.events > 0) || (recv.done < recvs && recv.queue.events > 0)
    modifies send`queue, send`acked, recv`queue, recv`acked
    ensures Waiting(send, recv, sends, recvs) && Continues(send, sends) && Continues(recv, recvs)
    ensures send.acked <= old(send.acked) + (if send.done < sends then 1 else 0)
    ensures recv.acked <= old(recv.acked) + (if recv.done < recvs then 1 else 0)
    ensures send.acked + recv.acked > old(send.acked + recv.acked)
  {
    if send.done < sends && send.queue.events > 0 {
      send.GetAndAckEvent(sends);
    }
    if recv.done < recvs && recv.queue.events > 0 {
      recv.GetAndAckEvent(recvs);
    }
  }

  /** Blocked on a direction that already holds a completion it needs. */
  ghost predicate Overlooked(d: Direction, expected: nat)
    reads d
  {
    d.done < expected && d.queue.unread != []
  }

  datatype RoundEnd = Ends(status: Status) | Again

  /** Arm, poll once more, block. A timeout never overlooks a completion of a direction that needed at
      most one when it was armed, and leaves every incomplete direction polled and listening. */
  method ArmAndBlock(send: Direction, recv: Direction, sends: nat, recvs: nat) returns (r: RoundEnd)
    requires Waiting(send, recv, sends, recvs) && Paced(send, recv)
    modifies send, recv
    ensures Continues(send, sends) && Continues(recv, recvs)
    ensures r != Ends(Completed) ==> send.acked == old(send.acked) && recv.acked == old(recv.acked)
    ensures r.Again? ==> Waiting(send, recv, sends, recvs) && Paced(send, recv)
    ensures r.Again? ==> (send.done < sends && send.queue.events > 0) || (recv.done < recvs && recv.queue.events > 0)
    ensures r != Ends(InvalidArgument)
    ensures r == Ends(Completed) ==> send.done == sends && recv.done == recvs
    ensures r == Ends(Completed) || r == Ends(TimedOut) ==> send.Counted() && recv.Counted()
    ensures r == Ends(TimedOut) ==> send.done < sends || recv.done < recvs
    ensures r == Ends(TimedOut) ==> Listening(send, sends) && Listening(recv, recvs)
    ensures r == Ends(TimedOut) ==> Paced(send, recv)
    ensures r == Ends(TimedOut) ==> Polls(send, sends) && Polls(recv, recvs)
    ensures r == Ends(TimedOut) && sends - old(send.done) <= 1 ==> !Overlooked(send, sends)
    ensures r == Ends(TimedOut) && recvs - old(recv.done) <= 1 ==> !Overlooked(recv, recvs)
    ensures r == Ends(CompletionFailed) ==> send.SawFailure() || recv.SawFailure()
  {
    if send.done >= sends && recv.done >= recvs {
      return Ends(Completed);
    }
    RequestIncomplete(send, recv, sends, recvs);
    var step := PollStep(send, recv, sends, recvs);
    if step.Failed? {
      return Ends(CompletionFailed);
    }
    if step.Done? {
      send.Drain(sends);
      recv.Drain(recvs);
      return Ends(Completed);
    }
    var ready := Block(send, recv, sends, recvs);
    r := if ready then Again else Ends(TimedOut);
  }

  /** Fetch the events that ended the blocking wait, then poll once. */
  method FetchAndPoll(send: Direction, recv: Direction, sends: nat, recvs: nat) returns (r: RoundEnd)
    requires Waiting(send, recv, sends, recvs) && Paced(send, recv)
    requires (send.done < sends && send.queue.events > 0) || (recv.done < recvs && recv.queue.events > 0)
    modifies send, recv
    ensures Continues(send, sends) && Continues(recv, recvs)
    ensures r.Again? ==> Waiting(send, recv, sends, recvs) && Paced(send, recv)
    ensures r.Again? ==> send.acked + recv.acked > old(send.acked + recv.acked)
    ensures |send.taken| + |recv.taken| > old(send.acked + recv.acked)
    ensures r == Again || r == Ends(Completed) || r == Ends(CompletionFailed)
    ensures r == Ends(Completed) ==> send.done == sends && recv.done == recvs && send.Counted() && recv.Counted()
    ensures r == Ends(CompletionFailed) ==> send.SawFailure() || recv.SawFailure()
  {
    FetchEvents(send, recv, sends, recvs);
    var step := PollStep(send, recv, sends, recvs);
    if step.Failed? {
      return Ends(CompletionFailed);
    }
    if step.Done? {
      send.Drain(sends);
      recv.Drain(recvs);
      return Ends(Completed);
    }
    r := Again;
  }

  /** The notification loop. Each blocking wait that returns ready fetches an event, and every fetched
      event is matched by a taken completion, so the loop ends. */
  method NotifyLoop(send: Direction, recv: Direction, sends: nat, recvs: nat) returns (status: Status, ghost waits: nat)
    requires Waiting(send, recv, sends, recvs) && Paced(send, recv)
    modifies send, recv
    ensures Continues(send, sends) && Continues(recv, recvs)
    ensures status != InvalidArgument
    ensures status == Completed ==> send.done == sends && recv.done == recvs
    ensures status == Completed || status == TimedOut ==> send.Counted() && recv.Counted()
    ensures status == TimedOut ==> send.done < sends || recv.done < recvs
    ensures status == TimedOut ==> Listening(send, sends) && Listening(recv, recvs) && Paced(send, recv)
    ensures status == TimedOut ==> Polls(send, sends) && Polls(recv, recvs)
    ensures status == CompletionFailed ==> send.SawFailure() || recv.SawFailure()
    ensures waits + old(send.acked + recv.acked) <= |send.taken| + |recv.taken|
    ensures status == TimedOut && sends - old(send.done) <= 1 ==> !Overlooked(send, sends)
    ensures status == TimedOut && recvs - old(recv.done) <= 1 ==> !Overlooked(recv, recvs)
  {
    waits := 0;
    while true
      invariant Waiting(send, recv, sends, recvs) && Paced(send, recv)
      invariant Continues(send, sends) && Continues(recv, recvs)
      invariant waits + old(send.acked + recv.acked) <= send.acked + recv.acked
      decreases sends + recvs - send.acked - recv.acked
    {
      var end := ArmAndBlock(send, recv, sends, recvs);
      if end.Ends? {
        return end.status, waits;
      }
      waits := waits + 1;
      end := FetchAndPoll(send, recv, sends, recvs);
      if end.Ends? {
        return end.status, waits;
      }
    }
  }

  /** The first drain of both directions, and what is pending already. */
  method StartBoth(send: Direction, recv: Direction, sends: nat, recvs: nat) returns (complete: bool)
    requires send != recv
    modifies send, recv
    ensures Waiting(send, recv, sends, recvs)
    ensures send.initial == old(send.queue.unread) && send.taken == [] && send.acked == 0
    ensures recv.initial == old(recv.queue.unread) && recv.taken == [] && recv.acked == 0
    ensures send.raisedBefore == old(send.queue.raised) && recv.raisedBefore == old(recv.queue.raised)
    ensures send.done == Min(sends, old(send.pending)) && send.fromPending + send.pending == old(send.pending)
    ensures recv.done == Min(recvs, old(recv.pending)) && recv.fromPending + recv.pending == old(recv.pending)
    ensures complete <==> send.done == sends && recv.done == recvs
  {
    send.StartDrained();
    recv.StartDrained();
    complete := ConsumePendingBoth(send, recv, sends, recvs);
  }

  /** `glmrt_rdma_rc_endpoint_poll_with_timeout`. The deadlines are clocks: `extraPasses` busy passes
      fit before the first, and a blocking wait times out when no event comes. */
  method PollWithTimeout(send: Direction, recv: Direction, sends: nat, recvs: nat, extraPasses: nat)
    returns (status: Status, ghost waits: nat)
    requires send != recv
    modifies send, recv
    ensures status == InvalidArgument <==> sends == 0 && recvs == 0
    ensures status != InvalidArgument ==>
              && send.Valid(sends) && send.initial == old(send.queue.unread)
              && send.fromPending + send.pending == old(send.pending) && send.raisedBefore == old(send.queue.raised)
              && recv.Valid(recvs) && recv.initial == old(recv.queue.unread)
              && recv.fromPending + recv.pending == old(recv.pending) && recv.raisedBefore == old(recv.queue.raised)
    ensures status == Completed ==> send.done == sends && recv.done == recvs
    ensures status == Completed || status == TimedOut ==> send.Counted() && recv.Counted()
    ensures status == TimedOut ==> send.done < sends || recv.done < recvs
    ensures status == TimedOut ==> Listening(send, sends) && Listening(recv, recvs) && Paced(send, recv)
    ensures status == TimedOut ==> Taken(send, sends, extraPasses + 2) && Taken(recv, recvs, extraPasses + 2)
    ensures status == CompletionFailed ==> send.SawFailure() || recv.SawFailure()
    ensures status != InvalidArgument ==> waits <= |send.taken| + |recv.taken| <= sends + recvs
    ensures status == TimedOut && sends - old(send.pending) <= 1 ==> !Overlooked(send, sends)
    ensures status == TimedOut && recvs - old(recv.pending) <= 1 ==> !Overlooked(recv, recvs)
  {
    hide Overlooked, Listening;
    waits := 0;
    if sends == 0 && recvs == 0 {
      return InvalidArgument, waits;
    }
    var complete := StartBoth(send, recv, sends, recvs);
    if complete {
      return Completed, waits;
    }
    var step := BusyPoll(send, recv, sends, recvs, extraPasses);
    if step.Failed? {
      return CompletionFailed, waits;
    }
    if step.Done? {
      return Completed, waits;
    }
    status, waits := NotifyLoop(send, recv, sends, recvs);
  }

  /** `glmrt_rdma_rc_endpoint_try_poll`: it reports at least what was pending or queued when it began, up to the
      maximum, never more than the maximum, and loses nothing. */
  method TryPoll(send: Direction, recv: Direction, maxSends: nat, maxRecvs: nat) returns (status: Status)
    requires send != recv
    modifies send, recv
    ensures status != TimedOut
    ensures status == InvalidArgument <==> maxSends == 0 && maxRecvs == 0
    ensures status != InvalidArgument ==>
              && send.Kept(maxSends) && send.initial == old(send.queue.unread)
              && recv.Kept(maxRecvs) && recv.initial == old(recv.queue.unread)
              && send.fromPending + send.pending == old(send.pending)
              && recv.fromPending + recv.pending == old(recv.pending)
    ensures status == Completed ==>
              && send.Counted() && Min(maxSends, old(send.pending) + |send.initial|) <= send.done <= maxSends
              && recv.Counted() && Min(maxRecvs, old(recv.pending) + |recv.initial|) <= recv.done <= maxRecvs
    ensures status == CompletionFailed ==> send.SawFailure() || recv.SawFailure()
  {
    if maxSends == 0 && maxRecvs == 0 {
      return InvalidArgument;
    }
    send.Start();
    recv.Start();
    send.ConsumePending(maxSends);
    recv.ConsumePending(maxRecvs);
    var ok := send.PollAvailable(maxSends);
    if ok {
      ok := recv.PollAvailable(maxRecvs);
    }
    status := if ok then Completed else CompletionFailed;
  }
}
