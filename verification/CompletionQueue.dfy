/** A completion queue with its event channel, as the device and the waiting host change it. */
module CompletionQueue {

  datatype Completion = Success | BadStatus | WrongOpcode

  /** Unread completions, oldest first; whether a notification is requested; events not yet fetched. And two records:
      how many events were ever raised, and how many completions were taken since the last request. */
  datatype Queue = Queue(unread: seq<Completion>, armed: bool, events: nat, raised: nat, took: nat)

  /** The device adds completions. The first one after a request raises an event and uses it up. */
  function Arrive(q: Queue, added: seq<Completion>): Queue {
    var raises := if q.armed && added != [] then 1 else 0;
    Queue(q.unread + added, q.armed && added == [], q.events + raises, q.raised + raises, q.took)
  }

  /** However completions are grouped, a request is answered by one event, and by none before the first of them. */
  lemma ArrivalsCompose(q: Queue, first: seq<Completion>, second: seq<Completion>)
    ensures Arrive(Arrive(q, first), second) == Arrive(q, first + second)
    ensures Arrive(q, first).raised - q.raised == Arrive(q, first).events - q.events
    ensures Arrive(q, first).events == q.events + 1 <==> q.armed && first != []
  {
    assert q.unread + first + second == q.unread + (first + second);
  }

  /** `ibv_req_notify_cq` */
  function Arm(q: Queue): Queue {
    q.(armed := true, took := 0)
  }

  /** `ibv_poll_cq` for one completion. */
  function Take(q: Queue): Queue
    requires q.unread != []
  {
    q.(unread := q.unread[1..], took := q.took + 1)
  }

  /** What one round of the wait does to a queue that still needs `needed` completions: arm, poll at
      most one, block. The device adds `early` before the poll and `late` after it. */
  function Round(q: Queue, needed: nat, early: seq<Completion>, late: seq<Completion>): (Queue, nat)
    requires needed > 0
  {
    var armed := Arrive(Arm(q), early);
    if armed.unread == [] then (Arrive(armed, late), needed)
    else (Arrive(Take(armed), late), needed - 1)
  }

  /** Blocked on a queue that already holds what is needed, with nothing to wake the waiter. */
  predicate LostWakeup(q: Queue, needed: nat) {
    needed > 0 && q.unread != [] && q.events == 0
  }

  /** A round that starts without a pending event loses a wakeup exactly when two completions are
      still needed, two are already unread, and the device stays quiet. */
  lemma LostWakeupExactly(q: Queue, needed: nat, early: seq<Completion>, late: seq<Completion>)
    requires needed > 0 && q.events == 0
    ensures var (after, left) := Round(q, needed, early, late);
            LostWakeup(after, left) <==> needed >= 2 && |q.unread| >= 2 && early == [] && late == []
  {}

  /** Whatever the queue holds and whatever the device does, no wakeup is lost, if and only if at most
      one completion is still needed. */
  lemma NoLostWakeupIff(needed: nat)
    requires needed > 0
    ensures needed <= 1 <==>
            forall q, early, late ::
              var (after, left) := Round(q, needed, early, late); !LostWakeup(after, left)
  {
    if needed >= 2 {
      var q := Queue([Success, Success], false, 0, 0, 0);
      var (after, left) := Round(q, needed, [], []);
      assert LostWakeup(after, left);
    }
  }
}
