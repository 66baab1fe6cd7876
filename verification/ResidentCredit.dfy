/**
  Resident-memory credits: pools, leases and charged buffers updated in place
  (src/resident_credit.rs:40-305).
*/
module ResidentCredit {
  import opened Wrappers
  import opened Text
  import opened ByteText
  import opened ResidentCharge

  /** What the counter becomes, if the limit allows the acquisition. */
  function Acquired(used: usize, limit: usize, bytes: usize): Option<usize> {
    if used + bytes <= MAX_USIZE && used + bytes <= limit then Some(used + bytes) else None
  }

  datatype Limit = Limit(maximum: usize)

  datatype ChargedBytesError = OverLimit(limit: Limit) | Capacity

  class Pool {
    const limit: usize
    var used: usize

    constructor (limit: usize)
      ensures this.limit == limit && used == 0
    {
      this.limit := limit;
      used := 0;
    }

    method TryAcquire(bytes: usize) returns (r: Result<Lease, Limit>)
      modifies this
      ensures r.Ok? <==> old(Acquired(used, limit, bytes)).Some?
      ensures r.Ok? ==> used == old(used) + bytes <= limit
      ensures r.Ok? ==> fresh(r.value) && r.value.pool == this && r.value.bytes == bytes && r.value.live
      ensures r.Err? ==> used == old(used) && r.error == Limit(limit)
    {
      var next := Acquired(used, limit, bytes);
      if next.None? {
        return Err(Limit(limit));
      }
      used := next.value;
      var lease := new Lease(this, bytes);
      r := Ok(lease);
    }
  }

  class Lease {
    const pool: Pool
    var bytes: usize
    /** Ownership: false once the lease has been dropped. */
    ghost var live: bool

    constructor (pool: Pool, bytes: usize)
      ensures this.pool == pool && this.bytes == bytes && live
    {
      this.pool, this.bytes, this.live := pool, bytes, true;
    }

    /** Split already charged ownership without changing the pool total. */
    method SplitOff(amount: usize) returns (r: Result<Lease, Limit>)
      requires live
      modifies this`bytes
      ensures r.Ok? <==> amount <= old(bytes)
      ensures r.Ok? ==> fresh(r.value) && r.value.live && r.value.pool == pool && r.value.bytes == amount
      ensures r.Ok? ==> bytes + r.value.bytes == old(bytes)
      ensures r.Err? ==> bytes == old(bytes) && r.error == Limit(pool.limit)
    {
      if amount > bytes {
        return Err(Limit(pool.limit));
      }
      bytes := bytes - amount;
      var part := new Lease(pool, amount);
      r := Ok(part);
    }

    /** Give the credit back. The pool holds at least what a live lease claims. */
    method Drop()
      requires live && pool.used >= bytes
      modifies this`live, pool
      ensures !live && pool.used == old(pool.used) - bytes
    {
      pool.used := pool.used - bytes;
      live := false;
    }

    /** Take over another lease of the same pool; on any failure the other lease is dropped. */
    method Merge(other: Lease) returns (r: Result<(), Limit>)
      requires live && other.live && other != this && other.pool.used >= other.bytes
      modifies this`bytes, other, other.pool
      ensures r.Ok? <==> pool == other.pool && old(bytes) + old(other.bytes) <= MAX_USIZE
      ensures live && !other.live
      ensures r.Ok? ==> bytes == old(bytes) + old(other.bytes) && other.pool.used == old(other.pool.used)
      ensures r.Err? ==> bytes == old(bytes) && other.pool.used == old(other.pool.used) - old(other.bytes)
    {
      if pool != other.pool || bytes + other.bytes > MAX_USIZE {
        other.Drop();
        return Err(Limit(pool.limit));
      }
      bytes := bytes + other.bytes;
      other.bytes := 0;
      other.Drop();
      r := Ok(());
    }
  }

  /** One byte buffer and the charge of its backing. */
  class ChargedBytes {
    var bytes: Bytes
    const capacity: usize
    const lease: Lease

    ghost predicate Valid()
      reads this, lease
    {
      && lease.live && |bytes| <= capacity
      && ByteBufferCharge(capacity) == Some(lease.bytes)
    }

    constructor (capacity: usize, lease: Lease)
      requires lease.live && ByteBufferCharge(capacity) == Some(lease.bytes)
      ensures Valid() && bytes == [] && this.capacity == capacity && this.lease == lease
    {
      this.bytes, this.capacity, this.lease := [], capacity, lease;
    }

    /** Append only inside the charged allocation. */
    method ExtendInPlace(source: Bytes) returns (ok: bool)
      requires Valid()
      modifies this
      ensures Valid()
      ensures ok <==> |old(bytes)| + |source| <= capacity
      ensures bytes == if ok then old(bytes) + source else old(bytes)
    {
      ok := SaturatingSub(capacity, |bytes|) >= |source|;
      if ok {
        bytes := bytes + source;
      }
    }

    method PushInPlace(b: byte) returns (ok: bool)
      requires Valid()
      modifies this
      ensures Valid()
      ensures ok <==> |old(bytes)| < capacity
      ensures bytes == if ok then old(bytes) + [b] else old(bytes)
    {
      ok := |bytes| != capacity;
      if ok {
        bytes := bytes + [b];
      }
    }

    method Truncate(length: usize)
      requires Valid()
      modifies this
      ensures Valid() && bytes == old(bytes)[..Min(length, |old(bytes)|)]
    {
      bytes := bytes[..Min(length, |bytes|)];
    }

    /** Hand the bytes and the unchanged charge to separate owners. */
    method IntoParts() returns (content: Bytes, charge: Lease)
      requires Valid()
      ensures content == bytes && charge == lease && charge.live
      ensures ByteBufferCharge(capacity) == Some(charge.bytes)
    {
      content, charge := bytes, lease;
    }
  }

  /** The requested charge was acquired, so that others could run meanwhile. */
  predicate Starts(capacity: usize, used: usize, limit: usize) {
    ByteBufferCharge(capacity).Some? && used + ByteBufferCharge(capacity).value <= limit
  }

  function GrantedCharge(granted: Option<usize>): Option<usize> {
    if granted.Some? then ByteBufferCharge(granted.value) else None
  }

  /**
    Charge first, allocate, then settle the difference. `granted` is the allocator's
    answer and `others` the net effect of every other owner of the pool meanwhile.
    It succeeds exactly when the requested charge fits at first and the charge of the real
    capacity fits at last, and then holds that charge; a failure holds nothing.
  */
  method TryWithCapacity(capacity: usize, pool: Pool, granted: Option<usize>, others: int)
      returns (r: Result<ChargedBytes, ChargedBytesError>)
    requires Starts(capacity, pool.used, pool.limit) ==>
      var charge := ByteBufferCharge(capacity).value;
      charge <= pool.used + charge + others <= pool.limit
    modifies pool
    ensures var started := Starts(capacity, old(pool.used), pool.limit);
      && (r.Ok? <==> started && GrantedCharge(granted).Some? && old(pool.used) + others + GrantedCharge(granted).value <= pool.limit)
      && (r.Err? ==> pool.used == old(pool.used) + if started then others else 0)
      && (r.Err? ==> r.error ==
                       if ByteBufferCharge(capacity).None? || (started && GrantedCharge(granted).None?) then Capacity
                       else OverLimit(Limit(pool.limit)))
    ensures r.Ok? ==> fresh(r.value) && r.value.Valid() && r.value.capacity == granted.value && r.value.bytes == []
    ensures r.Ok? ==> r.value.lease.pool == pool && r.value.lease.bytes == GrantedCharge(granted).value
    ensures r.Ok? ==> pool.used == old(pool.used) + others + r.value.lease.bytes
  {
    hide ByteBufferCharge;
    var requested := ByteBufferCharge(capacity);
    if requested.None? {
      return Err(Capacity);
    }
    var acquired := pool.TryAcquire(requested.value);
    if acquired.Err? {
      return Err(OverLimit(acquired.error));
    }
    var lease := acquired.value;
    pool.used := pool.used + others;
    if granted.None? {
      lease.Drop();
      return Err(Capacity);
    }
    var actual := ByteBufferCharge(granted.value);
    if actual.None? {
      lease.Drop();
      return Err(Capacity);
    }
    if actual.value > requested.value {
      var extra := pool.TryAcquire(actual.value - requested.value);
      if extra.Err? {
        lease.Drop();
        return Err(OverLimit(extra.error));
      }
      var merged := lease.Merge(extra.value);
      assert merged.Ok?;
    } else if actual.value < requested.value {
      var part := lease.SplitOff(requested.value - actual.value);
      assert part.Ok?;
      part.value.Drop();
    }
    var buffer := new ChargedBytes(granted.value, lease);
    r := Ok(buffer);
  }
}
