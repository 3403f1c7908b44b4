/**
 * The bounded claim queue of the turfwar server (`struct Claims`,
 * `AddClaim`, `GetClaims`): a fixed ring of `QUEUE_MAX` claims with a head
 * index and a count, shared by the HTTP workers (producers) and the claim
 * worker (consumer).
 *
 * The mutex and the two condition variables only serialise these updates;
 * the model keeps the sequential effect of each critical section. A deadline
 * wait on a full queue is the wait that gave up, and the consumer's wait on an
 * empty queue returns whatever is present, possibly nothing.
 */
module ClaimQueue {
  import opened Bytes

  /** Capacity of the ring (`QUEUE_MAX`). */
  const QUEUE_MAX: nat := 800

  /** One land claim: origin address, creation time in seconds, nickname. */
  datatype Claim = Claim(ip: uint32, created: int, name: seq<uint8>)

  /**
   * The slot `k` places after `pos` in a ring of `n` slots. With `pos` and `k`
   * both below `n` one subtraction wraps it, as the source does.
   */
  function Slot(pos: nat, k: nat, n: nat): (i: nat)
    requires pos < n && k <= n
    ensures i < n
  {
    if pos + k < n then pos + k else pos + k - n
  }

  /** The wrap is reduction modulo the capacity. */
  lemma SlotIsModulo(pos: nat, k: nat)
    requires pos < QUEUE_MAX && k <= QUEUE_MAX
    ensures Slot(pos, k, QUEUE_MAX) == (pos + k) % QUEUE_MAX
  {
  }

  /** Advancing the head by one more slot, with the wrap the drain loop does. */
  lemma SlotStep(pos: nat, k: nat, n: nat)
    requires pos < n && k < n
    ensures Slot(pos, k + 1, n) == Slot(Slot(pos, k, n), 1, n)
    ensures Slot(Slot(pos, k, n), 1, n) == if Slot(pos, k, n) + 1 == n then 0 else Slot(pos, k, n) + 1
  {
  }

  /**
   * The claims a ring holds, oldest first: `count` slots starting at `pos`,
   * wrapping around the end of `buf`.
   */
  function RingView(buf: seq<Claim>, pos: nat, count: nat): (r: seq<Claim>)
    requires pos < |buf| && count <= |buf|
  {
    seq(count, k requires 0 <= k < count => buf[Slot(pos, k, |buf|)])
  }

  /** Writing the slot just past the tail appends to the view. */
  lemma RingViewPush(buf: seq<Claim>, pos: nat, count: nat, v: Claim)
    requires pos < |buf| && count < |buf|
    ensures RingView(buf[Slot(pos, count, |buf|) := v], pos, count + 1) == RingView(buf, pos, count) + [v]
  {
    var buf' := buf[Slot(pos, count, |buf|) := v];
    assert forall k | 0 <= k < count :: Slot(pos, k, |buf|) != Slot(pos, count, |buf|);
    assert RingView(buf', pos, count + 1)[..count] == RingView(buf, pos, count);
  }

  /** Moving the head one slot forward drops the oldest element of the view. */
  lemma RingViewPop(buf: seq<Claim>, pos: nat, count: nat)
    requires pos < |buf| && 0 < count <= |buf|
    ensures RingView(buf, Slot(pos, 1, |buf|), count - 1) == RingView(buf, pos, count)[1..]
  {
    assert forall k | 0 <= k < count - 1 :: Slot(Slot(pos, 1, |buf|), k, |buf|) == Slot(pos, k + 1, |buf|);
  }

  /** One step of the drain loop: the head slot holds the next claim in FIFO order. */
  lemma DrainStep(buf: seq<Claim>, pos: nat, count: nat, start: seq<Claim>, got: nat)
    requires pos < |buf| && 0 < count <= |buf| && got <= |start|
    requires RingView(buf, pos, count) == start[got..]
    ensures got < |start| && buf[pos] == start[got]
    ensures RingView(buf, Slot(pos, 1, |buf|), count - 1) == start[got + 1..]
  {
    RingViewPop(buf, pos, count);
  }

  class Claims {
    /** The ring's storage (`data[QUEUE_MAX]`). */
    const data: array<Claim>
    /** Index of the oldest claim. */
    var pos: int
    /** Number of claims held. */
    var count: int

    ghost predicate Valid()
      reads this
    {
      data.Length == QUEUE_MAX && 0 <= pos < QUEUE_MAX && 0 <= count <= QUEUE_MAX
    }

    /** The queued claims, oldest first. */
    ghost function Contents(): (s: seq<Claim>)
      reads this, data
      requires Valid()
    {
      RingView(data[..], pos, count)
    }

    /** The zero-initialised global `g_claims`. */
    constructor (blank: Claim)
      ensures Valid() && fresh(data)
      ensures pos == 0 && Contents() == []
    {
      data := new Claim[QUEUE_MAX](_ => blank);
      pos, count := 0, 0;
    }

    /**
     * `AddClaim`: on a queue with room, the claim goes to slot
     * `(pos + count) mod QUEUE_MAX`, the count grows by one and the head and
     * every other slot stay as they were. On a full queue the deadline wait
     * gives up and nothing changes.
     */
    method AddClaim(v: Claim) returns (added: bool)
      requires Valid()
      modifies this, data
      ensures Valid()
      ensures added <==> old(count) < QUEUE_MAX
      ensures added ==> pos == old(pos) && count == old(count) + 1
      ensures added ==> data[(old(pos) + old(count)) % QUEUE_MAX] == v
      ensures added ==> forall k | 0 <= k < QUEUE_MAX && k != (old(pos) + old(count)) % QUEUE_MAX ::
                           data[k] == old(data[k])
      ensures added ==> Contents() == old(Contents()) + [v]
      ensures !added ==> pos == old(pos) && count == old(count) && data[..] == old(data[..])
      ensures !added ==> Contents() == old(Contents())
    {
      if count != QUEUE_MAX {
        var i := pos + count;
        if QUEUE_MAX <= i {
          i := i - QUEUE_MAX;
        }
        SlotIsModulo(pos, count);
        ghost var before := data[..];
        data[i] := v;
        assert data[..] == before[i := v];
        RingViewPush(before, pos, count, v);
        count := count + 1;
        added := true;
      } else {
        added := false;
      }
    }

    /**
     * `GetClaims(q, out, len)`: copies `min(len, count)` claims into `out`,
     * oldest first, advancing the head modulo `QUEUE_MAX` and decreasing the
     * count by the number copied. A `len` of zero or less copies nothing.
     */
    method GetClaims(out: array<Claim>, len: int) returns (got: int)
      requires Valid()
      requires out != data && len <= out.Length
      modifies this, out
      ensures Valid()
      ensures got == if len <= 0 then 0 else if len < old(count) then len else old(count)
      ensures out[..got] == old(Contents())[..got]
      ensures out[got..] == old(out[got..])
      ensures count == old(count) - got
      ensures pos == (old(pos) + got) % QUEUE_MAX
      ensures Contents() == old(Contents())[got..]
    {
      ghost var start := Contents();
      ghost var buf := data[..];
      ghost var p0 := pos;
      got := 0;
      while got < len && count != 0
        invariant 0 <= pos < QUEUE_MAX
        invariant 0 <= got <= |start| && count == |start| - got
        invariant len <= 0 ==> got == 0
        invariant len > 0 ==> got <= len
        invariant pos == Slot(p0, got, QUEUE_MAX)
        invariant RingView(buf, pos, count) == start[got..]
        invariant forall k | 0 <= k < got :: out[k] == start[k]
        invariant forall k | got <= k < out.Length :: out[k] == old(out[k])
        decreases count
      {
        DrainStep(buf, pos, count, start, got);
        SlotStep(p0, got, QUEUE_MAX);
        out[got] := data[pos];
        got := got + 1;
        pos := pos + 1;
        count := count - 1;
        if pos == QUEUE_MAX {
          pos := 0;
        }
      }
      assert data[..] == buf;
      assert out[..got] == start[..got];
      assert out[got..] == old(out[got..]);
      SlotIsModulo(p0, got);
    }
  }

  /**
   * FIFO end to end: claims added to an empty queue one after the other and
   * then drained come out in the order they went in.
   */
  method EnqueueThenDrain(q: Claims, batch: seq<Claim>, out: array<Claim>) returns (got: int)
    requires q.Valid() && q.Contents() == []
    requires |batch| <= QUEUE_MAX && |batch| <= out.Length && out != q.data
    modifies q, q.data, out
    ensures got == |batch| && out[..got] == batch
    ensures q.Valid() && q.Contents() == []
  {
    var i := 0;
    while i < |batch|
      invariant 0 <= i <= |batch|
      invariant q.Valid() && q.Contents() == batch[..i]
      invariant q.count == i
    {
      var added := q.AddClaim(batch[i]);
      assert batch[..i + 1] == batch[..i] + [batch[i]];
      i := i + 1;
    }
    assert batch[..i] == batch;
    got := q.GetClaims(out, |batch|);
  }
}
