/**
 * The DMA page allocator (src/allocator.rs).
 *
 * One region of device-visible memory is cut into `granularity`-byte units
 * tracked by a bitmap.  `Alloc` hands out a run of free units together
 * with a view of their bytes; dropping the returned guard gives the run
 * back.  The bitmap search of the underlying allocator library is not
 * modelled: a successful allocation returns *some* free run.
 */
module DmaAllocator {
  import opened Bytes

  /** A run of `count` units starting at unit `start`. */
  datatype Region = Region(start: nat, count: nat)

  predicate Disjoint(a: Region, b: Region) {
    a.start + a.count <= b.start || b.start + b.count <= a.start
  }

  /** Units `start .. start + n` exist and are all free. */
  predicate FreeRun(bits: seq<bool>, start: nat, n: nat) {
    start + n <= |bits| && forall i :: start <= i < start + n ==> !bits[i]
  }

  /** The bitmap with units `start .. start + n` set to `v`. */
  function Mark(bits: seq<bool>, start: nat, n: nat, v: bool): (r: seq<bool>)
    requires start + n <= |bits|
    ensures |r| == |bits|
    ensures forall i :: 0 <= i < |r| ==> r[i] == if start <= i < start + n then v else bits[i]
  {
    bits[..start] + seq(n, _ => v) + bits[start + n..]
  }

  /** Marking a run of one unit is updating that unit. */
  lemma MarkOne(bits: seq<bool>, start: nat, v: bool)
    requires start < |bits|
    ensures Mark(bits, start, 1, v) == bits[start := v]
  {
    assert Mark(bits, start, 1, v) == bits[..start] + [v] + bits[start + 1..];
  }

  /** Taking a free run and giving it back restores the bitmap. */
  lemma {:induction false} MarkThenClear(bits: seq<bool>, start: nat, n: nat)
    requires FreeRun(bits, start, n)
    ensures Mark(Mark(bits, start, n, true), start, n, false) == bits
  {
    var r := Mark(Mark(bits, start, n, true), start, n, false);
    forall i | 0 <= i < |bits|
      ensures r[i] == bits[i]
    {
      if start <= i < start + n {
        assert !bits[i];
      }
    }
  }

  /**
   * The `s`-th to `(s+n)`-th units lie inside the region's bytes, so the
   * view of an allocated run never reaches the remainder bytes that do not
   * make up a whole unit.
   */
  lemma UnitsFit(granularity: nat, len: nat, s: nat, n: nat)
    requires granularity > 0 && s + n <= len / granularity
    ensures granularity * s + granularity * n <= len
  {
    var units := len / granularity;
    assert granularity * units <= len;
    assert granularity * (s + n) <= granularity * units by {
      MulMonotone(granularity, s + n, units);
    }
  }

  lemma MulMonotone(a: nat, x: nat, y: nat)
    requires x <= y
    ensures a * x <= a * y
  {
  }

  class Allocator {
    /** The DMA region and the device address of its first byte. */
    const memory: array<byte>
    const base: nat
    const granularity: nat
    /** One flag per whole unit of the region: in use or free. */
    const used: array<bool>
    /** The guards handed out and not yet dropped. */
    ghost var live: set<AllocationGuard>

    ghost predicate Valid()
      reads this, used, live
    {
      && granularity > 0
      && used.Length == memory.Length / granularity
      && base + memory.Length <= 0x1_0000_0000_0000_0000
      && (forall g :: g in live ==> GuardHeld(g))
      && (forall g, h :: g in live && h in live && g != h ==>
            Disjoint(g.region.value, h.region.value))
    }

    /** `g` came from this allocator and still holds its run. */
    ghost predicate GuardHeld(g: AllocationGuard)
      reads this, used, g
    {
      && g.allocator == this
      && g.region.Some?
      && 0 < g.region.value.count
      && g.region.value.start + g.region.value.count <= used.Length
      && g.offset == granularity * g.region.value.start
      && g.length == granularity * g.region.value.count
      && (forall i :: g.region.value.start <= i < g.region.value.start + g.region.value.count ==> used[i])
    }

    /** The allocator manages `|memory| / granularity` units, all free. */
    constructor (memory: array<byte>, base: nat, granularity: nat)
      requires granularity > 0
      requires base + memory.Length <= 0x1_0000_0000_0000_0000
      ensures Valid() && fresh(used)
      ensures this.memory == memory && this.base == base && this.granularity == granularity
      ensures used.Length == memory.Length / granularity
      ensures forall i :: 0 <= i < used.Length ==> !used[i]
      ensures live == {}
    {
      this.memory := memory;
      this.base := base;
      this.granularity := granularity;
      used := new bool[memory.Length / granularity](_ => false);
      live := {};
    }

    /**
     * Takes some free run of `n` units.  Fails exactly when the bitmap has
     * no such run, and then changes nothing.  The guard's view starts
     * `granularity * start` bytes into the region and is
     * `granularity * n` bytes long.
     */
    method Alloc(n: nat) returns (r: Option<AllocationGuard>)
      requires Valid() && n > 0
      modifies this, used
      ensures Valid()
      ensures r.None? <==> !exists s :: FreeRun(old(used[..]), s, n)
      ensures r.None? ==> used[..] == old(used[..]) && live == old(live)
      ensures r.Some? ==>
                && fresh(r.value)
                && r.value.allocator == this
                && r.value.region.Some?
                && r.value.region.value.count == n
                && FreeRun(old(used[..]), r.value.region.value.start, n)
                && used[..] == Mark(old(used[..]), r.value.region.value.start, n, true)
                && r.value.offset == granularity * r.value.region.value.start
                && r.value.length == granularity * n
                && r.value.offset + r.value.length <= memory.Length
                && live == old(live) + {r.value}
    {
      if n > used.Length || !exists s | 0 <= s <= used.Length - n :: FreeRun(used[..], s, n) {
        return None;
      }
      var s :| 0 <= s <= used.Length - n && FreeRun(used[..], s, n);
      ghost var before := used[..];
      HeldBits(before);
      SetRun(Region(s, n), true);
      UnitsFit(granularity, memory.Length, s, n);
      var g := new AllocationGuard(this, Region(s, n), granularity * s, granularity * n);
      StillHeldAfterMark(before, Region(s, n));
      live := live + {g};
      r := Some(g);
    }

    /** The units of every live guard are set in `bits`. */
    ghost predicate HeldIn(bits: seq<bool>)
      reads this, live
    {
      forall h :: h in live ==>
        && h.region.Some?
        && h.region.value.start + h.region.value.count <= |bits|
        && forall j :: h.region.value.start <= j < h.region.value.start + h.region.value.count ==> bits[j]
    }

    lemma HeldBits(bits: seq<bool>)
      requires Valid() && bits == used[..]
      ensures HeldIn(bits)
    {
    }

    /**
     * Marking a run that was free in `before` keeps every live guard held
     * and the new run disjoint from all of theirs.
     */
    lemma StillHeldAfterMark(before: seq<bool>, run: Region)
      requires HeldIn(before) && FreeRun(before, run.start, run.count) && 0 < run.count
      requires |before| == used.Length
      requires used[..] == Mark(before, run.start, run.count, true)
      requires forall h :: h in live ==>
                 && h.allocator == this && 0 < h.region.value.count
                 && h.offset == granularity * h.region.value.start
                 && h.length == granularity * h.region.value.count
      ensures forall h :: h in live ==> GuardHeld(h) && Disjoint(h.region.value, run)
    {
      forall h | h in live
        ensures GuardHeld(h) && Disjoint(h.region.value, run)
      {
        var hr := h.region.value;
        forall j | hr.start <= j < hr.start + hr.count
          ensures used[j]
        {
          assert before[j];
          assert used[..][j] == used[j];
        }
        // The first unit of each run is outside the other run: one is held, the other free.
        assert before[hr.start] && !before[run.start];
      }
    }

    /** Sets units `run.start .. run.start + run.count` of the bitmap to `v`. */
    method SetRun(run: Region, v: bool)
      requires run.start + run.count <= used.Length
      modifies used
      ensures used[..] == Mark(old(used[..]), run.start, run.count, v)
    {
      var i := run.start;
      while i < run.start + run.count
        invariant run.start <= i <= run.start + run.count
        invariant forall j :: 0 <= j < used.Length ==>
            used[j] == if run.start <= j < i then v else old(used[j])
      {
        used[i] := v;
        i := i + 1;
      }
    }

    /**
     * Frees a run without checking that it was in use, as the library's
     * relaxed deallocation does.
     */
    method DeallocRelaxed(region: Region)
      requires region.start + region.count <= used.Length
      modifies used
      ensures used[..] == Mark(old(used[..]), region.start, region.count, false)
    {
      SetRun(region, false);
    }
  }

  /** Owns a run of units and a view of its bytes until it is dropped. */
  class AllocationGuard {
    const allocator: Allocator
    /** Taken out on drop, so the run is given back at most once. */
    var region: Option<Region>
    /** The view: `length` bytes from byte `offset` of the allocator's region. */
    const offset: nat
    const length: nat

    constructor (allocator: Allocator, region: Region, offset: nat, length: nat)
      ensures this.allocator == allocator && this.region == Some(region)
      ensures this.offset == offset && this.length == length
    {
      this.allocator := allocator;
      this.region := Some(region);
      this.offset := offset;
      this.length := length;
    }

    /** The device address of the first byte of the view (`Deref` then `as_ptr`). */
    function Address(): nat {
      allocator.base + offset
    }

    ghost predicate Valid()
      reads this, allocator, allocator.used, allocator.live
    {
      allocator.Valid() && (region.Some? ==> this in allocator.live)
    }

    /**
     * Gives the run back to the allocator it came from, once: the region
     * is taken out of the guard, so a second drop changes nothing.
     */
    method Drop()
      requires Valid()
      modifies this, allocator, allocator.used
      ensures Valid() && region.None?
      ensures this !in allocator.live
      ensures old(region).Some? ==>
                && allocator.used[..] == Mark(old(allocator.used[..]), old(region).value.start, old(region).value.count, false)
                && allocator.live == old(allocator.live) - {this}
      ensures old(region).None? ==>
                allocator.used[..] == old(allocator.used[..]) && allocator.live == old(allocator.live)
    {
      if region.Some? {
        var r := region.value;
        region := None;
        allocator.DeallocRelaxed(r);
        allocator.live := allocator.live - {this};
        forall h | h in allocator.live
          ensures allocator.GuardHeld(h)
        {
          assert old(allocator.GuardHeld(h));
          assert Disjoint(h.region.value, r);
        }
      }
    }
  }

  /** An allocation immediately dropped leaves the bitmap as it was. */
  method AllocThenDrop(a: Allocator, n: nat) returns (g: Option<AllocationGuard>)
    requires a.Valid() && n > 0
    modifies a, a.used
    ensures a.Valid()
    ensures a.used[..] == old(a.used[..]) && a.live == old(a.live)
  {
    g := a.Alloc(n);
    if g.Some? {
      ghost var s := g.value.region.value.start;
      g.value.Drop();
      MarkThenClear(old(a.used[..]), s, n);
    }
  }
}
