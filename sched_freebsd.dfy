/**
 * `_pthread_setschedparam_freebsd`: translates a POSIX scheduling policy
 * and priority into FreeBSD's `struct rtprio` and hands it to the
 * `rtprio_thread` system call, whose result is returned as is.
 *
 * The system call is an input (a function from its three arguments to its
 * return value). Policies are FreeBSD's numbering.
 */
module SchedFreeBsd {

  const SCHED_FIFO: int := 1
  const SCHED_RR: int := 3

  const RTP_SET: int := 1
  const RTP_PRIO_MAX: int := 31

  // Scheduling classes of `rtprio.type`: the FIFO variant of the real-time
  // class is the real-time class with one more bit set.
  const PRI_REALTIME: bv16 := 2
  const PRI_FIFO_BIT: bv16 := 8
  const PRI_FIFO: bv16 := PRI_REALTIME | PRI_FIFO_BIT
  const PRI_TIMESHARE: bv16 := 3

  /** `struct rtprio`: the scheduling class and the priority within it (0 is the highest). */
  datatype Rtprio = Rtprio(kind: bv16, prio: int)

  /** The class with the FIFO bit cleared, as FreeBSD's `PRI_BASE` reads it. */
  function Base(kind: bv16): bv16 {
    kind & !PRI_FIFO_BIT
  }

  /** The `rtprio` the policy and priority translate to. */
  function RtprioFor(policy: int, priority: int): (rtp: Rtprio) {
    if policy == SCHED_RR then Rtprio(PRI_REALTIME, RTP_PRIO_MAX - priority)
    else if policy == SCHED_FIFO then Rtprio(PRI_FIFO, RTP_PRIO_MAX - priority)
    else Rtprio(PRI_TIMESHARE, 0)
  }

  /** The policy and priority a real-time `rtprio` stands for; anything else reads as neither. */
  function PolicyOf(rtp: Rtprio): (r: (int, int)) {
    if rtp.kind == PRI_REALTIME then (SCHED_RR, RTP_PRIO_MAX - rtp.prio)
    else if rtp.kind == PRI_FIFO then (SCHED_FIFO, RTP_PRIO_MAX - rtp.prio)
    else (0, 0)
  }

  /**
   * Round-robin and FIFO both land in the real-time class, told apart by
   * the FIFO bit alone, and the translation loses nothing: the policy and
   * priority are read back from the `rtprio`. Every other policy becomes
   * time-sharing at priority 0 whatever the priority asked for.
   */
  lemma RtprioForClasses(policy: int, priority: int)
    ensures var rtp := RtprioFor(policy, priority);
      && (Base(rtp.kind) == PRI_REALTIME <==> policy == SCHED_RR || policy == SCHED_FIFO)
      && (rtp.kind & PRI_FIFO_BIT != 0 <==> policy == SCHED_FIFO)
      && (policy == SCHED_RR || policy == SCHED_FIFO ==> PolicyOf(rtp) == (policy, priority))
      && (policy != SCHED_RR && policy != SCHED_FIFO ==> rtp == Rtprio(PRI_TIMESHARE, 0))
  {
  }

  /**
   * A POSIX priority in 0..31 becomes a FreeBSD priority in 0..31, in the
   * opposite order: a higher POSIX priority is a smaller, more urgent number.
   */
  lemma RtprioForReversesOrder(policy: int, p1: int, p2: int)
    requires policy == SCHED_RR || policy == SCHED_FIFO
    requires 0 <= p1 <= RTP_PRIO_MAX && 0 <= p2 <= RTP_PRIO_MAX
    ensures 0 <= RtprioFor(policy, p1).prio <= RTP_PRIO_MAX
    ensures p1 < p2 <==> RtprioFor(policy, p1).prio > RtprioFor(policy, p2).prio
  {
  }

  /** The arguments of the one system call the function makes. */
  datatype Call = Call(fun: int, tid: int, rtp: Rtprio)

  /**
   * `_pthread_setschedparam_freebsd`: `kernel` answers the `rtprio_thread`
   * call; its answer is the result.
   */
  function SetSchedParam(tid: int, policy: int, priority: int, kernel: Call -> int): int
  {
    kernel(Call(RTP_SET, tid, RtprioFor(policy, priority)))
  }

  /**
   * What the kernel is asked depends on the priority only for the two
   * real-time policies: under any other policy two calls that differ only
   * in the priority get the same answer, and under a real-time policy two
   * priorities get the same answer from every kernel exactly when they are
   * equal: some kernel tells any two different ones apart.
   */
  lemma SetSchedParamUsesPriority(tid: int, policy: int, p1: int, p2: int, kernel: Call -> int)
    ensures policy != SCHED_RR && policy != SCHED_FIFO ==>
      SetSchedParam(tid, policy, p1, kernel) == SetSchedParam(tid, policy, p2, kernel)
    ensures policy == SCHED_RR || policy == SCHED_FIFO ==>
      ((forall k: Call -> int :: SetSchedParam(tid, policy, p1, k) == SetSchedParam(tid, policy, p2, k)) <==> p1 == p2)
  {
    if (policy == SCHED_RR || policy == SCHED_FIFO) && p1 != p2 {
      var asked := Call(RTP_SET, tid, RtprioFor(policy, p1));
      var k := (c: Call) => if c == asked then 1 else 0;
      assert SetSchedParam(tid, policy, p1, k) != SetSchedParam(tid, policy, p2, k);
    }
  }
}
