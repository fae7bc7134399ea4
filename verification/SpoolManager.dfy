/** The byte budget that every spooled request body is charged to. */
module SpoolManager {
  import opened Bytes
  import opened Integers

  datatype Error = NoError | RequestLimit | Capacity | Canceled

  function Sum(charges: seq<int>): int {
    if charges == [] then 0 else Sum(charges[..|charges| - 1]) + charges[|charges| - 1]
  }

  lemma {:induction false} SumUpdate(charges: seq<int>, i: nat, n: int)
    requires i < |charges|
    ensures Sum(charges[i := n]) == Sum(charges) - charges[i] + n
  {
    var k := |charges| - 1;
    if i == k {
      assert charges[i := n][..k] == charges[..k];
    } else {
      SumUpdate(charges[..k], i, n);
      assert charges[i := n][..k] == charges[..k][i := n];
    }
  }

  lemma {:induction false} SumPositive(charges: seq<int>)
    requires forall k :: 0 <= k < |charges| ==> charges[k] >= 0
    ensures Sum(charges) >= 0
  {
    if charges != [] {
      SumPositive(charges[..|charges| - 1]);
    }
  }

  class Manager {
    var current: int
    var capacity: int

    /** Every reservation ever made and what each is charged now. */
    ghost var issued: seq<Reservation>
    ghost var charges: seq<int>

    /** The total is exactly what the unreleased reservations use, and it is within the capacity. */
    ghost predicate Valid()
      reads this, issued
    {
      && Int64(capacity)
      && current == Sum(charges)
      && 0 <= current <= Max(0, capacity)
      && |charges| == |issued|
      && (issued != [] ==> capacity >= 0)
      && forall i :: 0 <= i < |issued| ==>
           && issued[i].manager == this && issued[i].index == i
           && 0 <= issued[i].used <= issued[i].limit <= MAX_INT64
           && charges[i] == if issued[i].released then 0 else issued[i].used
    }

    ghost predicate Issued(r: Reservation)
      reads this
    {
      r.index < |issued| && issued[r.index] == r
    }

    constructor (capacity: int)
      requires Int64(capacity)
      ensures Valid() && current == 0 && this.capacity == capacity && issued == []
    {
      current, this.capacity, issued, charges := 0, capacity, [], [];
    }

    method ReconfigureCapacity(capacity: int) returns (error: Error)
      requires Valid() && Int64(capacity)
      modifies this`capacity
      ensures Valid()
      ensures error == if capacity > 0 && current <= capacity then NoError else Capacity
      ensures this.capacity == if error == NoError then capacity else old(this.capacity)
    {
      if capacity <= 0 {
        return Capacity;
      }
      if current > capacity {
        return Capacity;
      }
      this.capacity := capacity;
      return NoError;
    }

    method Acquire(canceled: bool, n: int, limit: int) returns (r: Reservation?, error: Error)
      requires Valid() && Int64(n) && Int64(limit)
      modifies this
      ensures Valid() && capacity == old(capacity)
      ensures error == if n < 0 || n > limit then RequestLimit
                       else if canceled then Canceled
                       else if old(current) + n > capacity then Capacity
                       else NoError
      ensures error == NoError <==> r != null
      ensures r == null ==> current == old(current) && issued == old(issued) && charges == old(charges)
      ensures r != null ==> fresh(r) && Issued(r) && r.manager == this && r.limit == limit && r.used == n && !r.released
      ensures r != null ==> current == old(current) + n && issued == old(issued) + [r] && charges == old(charges) + [n]
    {
      if n < 0 || limit < 0 || n > limit {
        return null, RequestLimit;
      }
      if canceled {
        return null, Canceled;
      }
      assert n <= capacity ==> Int64(capacity - n);
      if current < 0 || n > capacity || current > capacity - n {
        return null, Capacity;
      }
      assert Int64(current + n);
      r := new Reservation(this, limit, n, |issued|);
      current, issued, charges := current + n, issued + [r], charges + [n];
      error := NoError;
      assert charges[..|charges| - 1] == old(charges);
    }
  }

  class Reservation {
    const manager: Manager
    const limit: int
    var used: int
    var released: bool
    ghost const index: nat

    constructor (manager: Manager, limit: int, n: int, ghost index: nat)
      ensures this.manager == manager && this.limit == limit && used == n && !released && this.index == index
    {
      this.manager, this.limit, used, released, this.index := manager, limit, n, false, index;
    }

    ghost predicate Valid()
      reads this, manager, manager.issued
    {
      manager.Valid() && manager.Issued(this)
    }

    method Grow(delta: int) returns (error: Error)
      requires Valid() && Int64(delta)
      modifies this`used, manager`current, manager`charges
      ensures Valid()
      ensures error == if delta < 0 || released || old(used) + delta > limit then RequestLimit
                       else if old(manager.current) + delta > manager.capacity then Capacity
                       else NoError
      ensures used == old(used) + if error == NoError then delta else 0
      ensures manager.current == old(manager.current) + if error == NoError then delta else 0
    {
      if delta < 0 {
        return RequestLimit;
      }
      if released {
        return RequestLimit;
      }
      assert Int64(limit - used) && Int64(limit - delta) && Int64(manager.capacity - delta);
      if delta > limit - used {
        return RequestLimit;
      }
      if used > limit - delta || manager.current > manager.capacity - delta {
        return if manager.current <= manager.capacity - delta then RequestLimit else Capacity;
      }
      assert Int64(used + delta) && Int64(manager.current + delta);
      SumUpdate(manager.charges, index, used + delta);
      used := used + delta;
      manager.current := manager.current + delta;
      manager.charges := manager.charges[index := used];
      return NoError;
    }

    /** Gives everything back, once. */
    method Release()
      requires Valid()
      modifies this`released, manager`current, manager`charges
      ensures Valid() && released
      ensures manager.current == old(manager.current) - if old(released) then 0 else used
    {
      if !released {
        SumUpdate(manager.charges, index, 0);
        SumPositive(manager.charges[index := 0]);
        manager.current := manager.current - used;
        released := true;
        manager.charges := manager.charges[index := 0];
      }
    }
  }

  /** Charges for what is offered beyond the declared length, which was charged in advance. */
  class ReservingWriter {
    const reservation: Reservation
    var remaining: int
    ghost const declared: nat
    ghost var offered: nat
    ghost var written: nat

    constructor (reservation: Reservation, declared: nat)
      requires reservation.used == declared
      ensures this.reservation == reservation && this.declared == declared && remaining == declared
      ensures offered == 0 && written == 0
    {
      this.reservation, remaining, this.declared := reservation, declared, declared;
      offered, written := 0, 0;
    }

    /** The reservation is charged the larger of the declared and the offered length, which covers what was written. */
    ghost predicate Valid()
      reads this, reservation, reservation.manager, reservation.manager.issued
    {
      && reservation.Valid()
      && remaining == Max(0, declared - offered)
      && reservation.used == Max(declared, offered)
      && written <= offered
    }

    /** Offers n bytes; the writer beneath takes some of them, and its error, if any, is passed on after the charge. */
    method Write(n: nat, taken: nat, fails: bool) returns (count: nat, error: Error, failed: bool)
      requires Valid() && Int64(n) && taken <= n
      modifies this, reservation`used, reservation.manager`current, reservation.manager`charges
      ensures Valid()
      ensures offered == old(offered) + if error == NoError then n else 0
      ensures written == old(written) + count
      ensures if error == NoError then count == taken && failed == fails else count == 0 && !failed
      ensures error == NoError <==>
        && !reservation.released
        && Max(declared, old(offered) + n) <= reservation.limit
        && old(reservation.manager.current) + Max(declared, old(offered) + n) - old(reservation.used)
             <= reservation.manager.capacity
    {
      var extra := if remaining >= n then 0 else n - remaining;
      count, failed := 0, false;
      error := reservation.Grow(extra);
      if error != NoError {
        return;
      }
      if remaining >= n {
        remaining := remaining - n;
      } else {
        remaining := 0;
      }
      count, failed := taken, fails;
      offered, written := offered + n, written + taken;
    }
  }
}
