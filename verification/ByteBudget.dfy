/** The byte budget that bounds undelivered app-server frames
    (crates/codex-platform/src/byte_budget.rs). */
module ByteBudget {

  import opened Numbers
  import opened Wrappers
  import opened Sequences

  function Identity(n: nat): nat { n }

  /** The bytes held by a sequence of leases. */
  function Held(leases: seq<nat>): nat { SumBy(Identity, leases) }

  predicate Fits(limit: nat, used: nat, bytes: nat) {
    !(bytes > limit || SaturatingSub(limit, used) < bytes)
  }

  /** What a waiter finds each time it holds the lock: the leases alive, the clock, and
      whether the wait that just ended timed out. */
  datatype Look = Look(leases: seq<nat>, now: nat, timedOut: bool)

  class Budget {
    const limit: nat
    var used: nat
    ghost var leases: seq<nat>

    ghost predicate Valid()
      reads this
    {
      used == Held(leases) && used <= limit
    }

    constructor (limit: nat)
      ensures Valid() && this.limit == limit && leases == []
    {
      this.limit := limit;
      used := 0;
      leases := [];
    }

    method AcquireIfAvailable(bytes: nat) returns (lease: Option<nat>)
      requires Valid()
      modifies this
      ensures Valid()
      ensures lease == if Held(old(leases)) + bytes <= limit then Some(bytes) else None
      ensures leases == old(leases) + (if lease.Some? then [bytes] else [])
    {
      if bytes > limit || SaturatingSub(limit, used) < bytes {
        return None;
      }
      used := used + bytes;
      SumByAppend(Identity, leases, bytes);
      leases := leases + [bytes];
      lease := Some(bytes);
    }

    /** Dropping a live lease. The subtraction saturates in the code; here it is exact. */
    method Drop(bytes: nat, ghost index: nat)
      requires Valid()
      requires index < |leases| && leases[index] == bytes
      modifies this
      ensures Valid()
      ensures used == old(used) - bytes
      ensures leases == old(leases)[..index] + old(leases)[index + 1..]
    {
      SumByRemove(Identity, leases, index);
      used := SaturatingSub(used, bytes);
      leases := leases[..index] + leases[index + 1..];
    }

    /** Waits for room. Between two looks other threads acquire and drop leases within the
        limit; the clock reaches the deadline at the last look at the latest. The waiter
        stops at the first look at which its bytes fit, the deadline is reached, or a wait has
        just timed out, and gets its lease iff they fit there; it never waits for a frame over
        the limit. */
    method AcquireTimeout(bytes: nat, deadline: nat, looks: seq<Look>) returns (lease: Option<nat>, count: nat)
      requires Valid()
      requires looks != [] && looks[0].leases == leases && !looks[0].timedOut
      requires looks[|looks| - 1].now >= deadline
      requires forall look :: look in looks ==> Held(look.leases) <= limit
      modifies this
      ensures Valid()
      ensures bytes > limit <==> count == 0
      ensures bytes > limit ==> lease.None? && leases == old(leases)
      ensures bytes <= limit ==>
                && count <= |looks|
                && (var last := looks[count - 1];
                    Held(last.leases) + bytes <= limit || deadline <= last.now || last.timedOut)
                && (forall i :: 0 <= i < count - 1 ==>
                      Held(looks[i].leases) + bytes > limit && looks[i].now < deadline && !looks[i].timedOut)
                && lease == (if Held(looks[count - 1].leases) + bytes <= limit then Some(bytes) else None)
                && leases == looks[count - 1].leases + (if lease.Some? then [bytes] else [])
    {
      if bytes > limit {
        return None, 0;
      }
      count := 1;
      while true
        invariant Valid()
        invariant 1 <= count <= |looks| && leases == looks[count - 1].leases
        invariant forall i :: 0 <= i < count - 1 ==>
                    Held(looks[i].leases) + bytes > limit && looks[i].now < deadline && !looks[i].timedOut
        invariant looks[count - 1].timedOut ==> Fits(limit, used, bytes)
        decreases |looks| - count
      {
        lease := AcquireIfAvailable(bytes);
        if lease.Some? {
          return lease, count;
        }
        if looks[count - 1].now >= deadline {
          return None, count;
        }
        // The wait gives up the lock and takes it again.
        count := count + 1;
        leases := looks[count - 1].leases;
        used := Held(looks[count - 1].leases);
        if looks[count - 1].timedOut && SaturatingSub(limit, used) < bytes {
          return None, count;
        }
      }
    }
  }
}
