/** The consistent-hashing ring as the objects main.py updates in place:
    ConsistentHashing.Ring (main.py:226-402) and its wrapper ConsistentHashing
    (main.py:404-446). Each method is proved against the slot-table functions
    of module Hashing. */
module HashRing {
  import opened Outcomes
  import opened Hashing

  /** The probe loop of `expand_ring` (main.py:316-322): `v` goes into
      every empty slot from `idx` to the end of `t`; there is no `break`. */
  method FillEmptyFrom(t: seq<Node?>, v: Node, idx: nat) returns (u: seq<Node?>)
    requires idx <= |t|
    ensures u == FillFrom(t, v, idx)
  {
    u := t;
    var i := idx;
    while i < |t|
      invariant idx <= i <= |t| && |u| == |t|
      invariant forall j :: 0 <= j < |t| ==> u[j] == if idx <= j < i && t[j] == null then v else t[j]
    {
      if u[i] == null {
        u := u[i := v];
      }
      i := i + 1;
    }
  }

  /** The rebuild loop of `expand_ring` (main.py:311-322): each old node, in
      order, goes to its digest modulo `n` in a table of `n` empty slots. */
  method RehashInto(md5: string -> nat, vals: seq<Node?>, n: nat) returns (t: seq<Node?>)
    requires 0 < n && null !in vals
    ensures t == Rehash(md5, vals, n)
  {
    t := seq(n, _ => null);
    var k := 0;
    while k < |vals|
      invariant 0 <= k <= |vals|
      invariant t == Rehash(md5, vals[..k], n)
    {
      var val := vals[k];
      var idx := md5(val.Text()) % n;
      assert vals[..k + 1][..k] == vals[..k];
      assert Rehash(md5, vals[..k + 1], n) == Place(t, val, idx);
      if t[idx] == null {
        t := t[idx := val];
      } else {
        t := FillEmptyFrom(t, val, idx);
        // main.py:324-327 cannot change the table: it only writes slot
        // `idx`, and only when that slot is empty, which it is not here.
      }
      k := k + 1;
    }
    assert vals[..k] == vals;
  }

  /** An open-addressed table of optional node slots. `capacity` is kept apart
      from the table's length: `put_server` appends without touching it. */
  class Ring {
    var ring: seq<Node?>
    var capacity: nat
    /** The md5 digest, as a number, of a key's text. */
    const md5: string -> nat

    /** The table is never shorter than the capacity, so every slot index
        below the capacity is in range. */
    ghost predicate Valid()
      reads this
    {
      capacity <= |ring|
    }

    /** `Ring(capacity)`: `capacity` empty slots. */
    constructor (capacity: nat, md5: string -> nat)
      ensures Valid()
      ensures ring == seq(capacity, _ => null) && this.capacity == capacity && this.md5 == md5
    {
      ring := seq(capacity, _ => null);
      this.capacity := capacity;
      this.md5 := md5;
    }

    /** `should_expand`: true exactly when no slot is empty. */
    method ShouldExpand() returns (full: bool)
      ensures full <==> null !in ring
    {
      for k := 0 to |ring|
        invariant forall j :: 0 <= j < k ==> ring[j] != null
      {
        if ring[k] == null {
          return false;
        }
      }
      return true;
    }

    /** `expand_ring`: when every slot is occupied, rehash all nodes into
        `2 * capacity + 1` slots; otherwise nothing changes. */
    method ExpandRing()
      requires Valid()
      modifies this
      ensures Valid()
      ensures (ring, capacity) == Expanded(md5, old(ring), old(capacity))
    {
      var full := ShouldExpand();
      if full {
        var n := capacity * 2 + 1;
        var nRing := RehashInto(md5, ring, n);
        ring := nRing;
        capacity := n;
      }
    }

    /** `put_server(node)`: `None` is ignored; an empty table raises
        ZeroDivisionError; otherwise the table becomes what `Put` says. */
    method PutServer(node: Node?) returns (r: Result<()>)
      requires Valid()
      modifies this
      ensures Valid()
      ensures node == null ==> r == Ok(()) && ring == old(ring) && capacity == old(capacity)
      ensures node != null && old(|ring|) == 0 ==>
        r == Err(ZeroDivision) && ring == old(ring) && capacity == old(capacity)
      ensures node != null && old(|ring|) > 0 ==>
        r == Ok(()) && (ring, capacity) == Put(md5, old(ring), old(capacity), node)
    {
      if node == null {
        return Ok(());
      }
      var home :- FindIndex(md5, Some(node.Text()), |ring|);
      if ring[home] == null {
        ring := ring[home := node];
        return Ok(());
      }
      var probed := home;
      var i := home;
      while i < |ring|
        invariant home <= i <= |ring| && probed == i
        invariant ring == old(ring)
        invariant forall j :: home <= j < i ==> ring[j] != null
      {
        if ring[i] == null {
          FirstIndexOfIs(ring, null, home, |ring|, i);
          ring := ring[i := node];
          break;
        }
        probed := probed + 1;
        i := i + 1;
      }
      if probed == |ring| {
        // No empty slot from home to the end; there is no wrap-around search.
        ghost var target := Put(md5, old(ring), old(capacity), node);
        var k := 0;
        while k < home
          invariant 0 <= k <= home && Valid()
          invariant k < home ==> ring == old(ring) && capacity == old(capacity)
          invariant k == home ==> (ring, capacity) == target
        {
          if home == k + 1 && ring[k] != null {
            ring := ring + [node];
            ExpandRing();
          }
          k := k + 1;
        }
      }
      return Ok(());
    }

    /** `get_server(req)`: exactly the slot at the request's home index, which
        may be empty. The fallback loops re-read that same slot, so they never
        find anything else. */
    method GetServer(req: Option<string>) returns (r: Result<Node?>)
      requires Valid()
      ensures req.None? ==> r == Err(ValueError)
      ensures req.Some? && capacity == 0 ==> r == Err(ZeroDivision)
      ensures req.Some? && 0 < capacity ==> r == Ok(ring[md5(req.value) % capacity])
    {
      var idx :- FindIndex(md5, req, capacity);
      if ring[idx] != null {
        return Ok(ring[idx]);
      }
      for i := idx to capacity {
        var probe := ring[idx];
        if probe != null {
          return Ok(probe);
        }
      }
      for i := 0 to idx {
        var probe := ring[idx];
        if probe != null {
          return Ok(probe);
        }
      }
      return Ok(null);
    }

    /** `update(target, replacement)`: overwrite the slot `UpdateSlot` picks
        and report whether there was one; every other slot is unchanged. */
    method Update(target: Node?, replacement: Node?) returns (r: Result<bool>)
      requires Valid()
      modifies this
      ensures Valid() && capacity == old(capacity)
      ensures target == null ==> r == Err(ValueError) && ring == old(ring)
      ensures target != null && capacity == 0 ==> r == Err(ZeroDivision) && ring == old(ring)
      ensures target != null && 0 < capacity ==>
        match UpdateSlot(md5, old(ring), capacity, target, replacement)
        case Some(i) => r == Ok(true) && ring == old(ring)[i := replacement]
        case None => r == Ok(false) && ring == old(ring)
    {
      var key := if target == null then None else Some(target.Text());
      var home :- FindIndex(md5, key, capacity);
      if ring[home] == null || ring[home] != target || replacement != null {
        for i := home to capacity
          invariant ring == old(ring)
          invariant forall j :: home <= j < i ==> ring[j] != target
        {
          if ring[i] == target {
            FirstIndexOfIs(ring, target, home, capacity, i);
            ring := ring[i := replacement];
            return Ok(true);
          }
        }
        for i := 0 to home
          invariant ring == old(ring)
          invariant forall j :: 0 <= j < i ==> ring[j] != target
        {
          if ring[i] == target {
            FirstIndexOfIs(ring, target, 0, home, i);
            ring := ring[i := replacement];
            return Ok(true);
          }
        }
      }
      return Ok(false);
    }

    /** `delete(target)`: `update(target, None)`. A node found is replaced by an
        empty slot, so one fewer slot is occupied. */
    method Delete(target: Node?) returns (r: Result<bool>)
      requires Valid()
      modifies this
      ensures Valid() && capacity == old(capacity)
      ensures target == null ==> r == Err(ValueError) && ring == old(ring)
      ensures target != null && capacity == 0 ==> r == Err(ZeroDivision) && ring == old(ring)
      ensures target != null && 0 < capacity ==>
        match UpdateSlot(md5, old(ring), capacity, target, null)
        case Some(i) => r == Ok(true) && ring == old(ring)[i := null]
        case None => r == Ok(false) && ring == old(ring)
      ensures r == Ok(true) ==> Occupied(ring) == Occupied(old(ring)) - 1
      ensures r != Ok(true) ==> ring == old(ring)
    {
      r := Update(target, null);
      if target != null && 0 < capacity {
        var slot := UpdateSlot(md5, old(ring), capacity, target, null);
        if slot.Some? {
          OccupiedReplace(old(ring), slot.value, null);
        }
      }
    }

    /** `soft_delete(target)`: put a fresh node with the same name, marked
        down, into the first slot holding `target`. The occupied count is
        unchanged; the result says whether `target` was found. */
    method SoftDelete(target: Node?) returns (r: Result<bool>)
      requires Valid()
      modifies this
      ensures Valid() && capacity == old(capacity)
      ensures target == null ==> r == Err(AttributeError) && ring == old(ring)
      ensures target != null && capacity == 0 ==> r == Err(ZeroDivision) && ring == old(ring)
      ensures target != null && 0 < capacity ==>
        match ProbeFind(old(ring), target, md5(target.Text()) % capacity, capacity)
        case Some(i) =>
          r == Ok(true) && ring[i] != null && fresh(ring[i])
          && ring[i].name == target.name && ring[i].isDown
          && ring == old(ring)[i := ring[i]]
        case None => r == Ok(false) && ring == old(ring)
      ensures Occupied(ring) == Occupied(old(ring))
    {
      if target == null {
        return Err(AttributeError);
      }
      var down := new Node.MarkedDown(target.name);
      r := Update(target, down);
      if 0 < capacity {
        var slot := UpdateSlot(md5, old(ring), capacity, target, down);
        if slot.Some? {
          OccupiedReplace(old(ring), slot.value, down);
        }
      }
    }
  }

  /** The `ConsistentHashing` front end: drops `None` arguments and forwards
      everything else to its ring. */
  class ConsistentHashing {
    const ring: Ring

    constructor (capacity: nat, md5: string -> nat)
      ensures fresh(ring) && ring.Valid()
      ensures ring.ring == seq(capacity, _ => null) && ring.capacity == capacity && ring.md5 == md5
    {
      ring := new Ring(capacity, md5);
    }

    /** `put(node)`: a `None` node changes nothing; otherwise `put_server`. */
    method Put(node: Node?) returns (r: Result<()>)
      requires ring.Valid()
      modifies ring
      ensures ring.Valid()
      ensures node == null ==> r == Ok(()) && ring.ring == old(ring.ring) && ring.capacity == old(ring.capacity)
      ensures node != null && old(|ring.ring|) == 0 ==>
        r == Err(ZeroDivision) && ring.ring == old(ring.ring) && ring.capacity == old(ring.capacity)
      ensures node != null && old(|ring.ring|) > 0 ==>
        r == Ok(()) && (ring.ring, ring.capacity) == Hashing.Put(ring.md5, old(ring.ring), old(ring.capacity), node)
    {
      r := Ok(());
      if node != null {
        r := ring.PutServer(node);
      }
    }

    /** `get_request_server(req)`: `None` for a `None` request, otherwise the
        slot at the request's home index. */
    method GetRequestServer(req: Option<string>) returns (r: Result<Node?>)
      requires ring.Valid()
      ensures req.None? ==> r == Ok(null)
      ensures req.Some? && ring.capacity == 0 ==> r == Err(ZeroDivision)
      ensures req.Some? && 0 < ring.capacity ==> r == Ok(ring.ring[ring.md5(req.value) % ring.capacity])
    {
      r := Ok(null);
      if req.Some? {
        r := ring.GetServer(req);
      }
    }

    /** `soft_delete(node)`: `None` for a `None` node, otherwise the ring's
        soft delete, which keeps the occupied count. */
    method SoftDelete(node: Node?) returns (r: Result<Option<bool>>)
      requires ring.Valid()
      modifies ring
      ensures ring.Valid() && ring.capacity == old(ring.capacity)
      ensures node == null ==> r == Ok(None) && ring.ring == old(ring.ring)
      ensures node != null && ring.capacity == 0 ==> r == Err(ZeroDivision) && ring.ring == old(ring.ring)
      ensures node != null && 0 < ring.capacity ==>
        match ProbeFind(old(ring.ring), node, ring.md5(node.Text()) % ring.capacity, ring.capacity)
        case Some(i) =>
          r == Ok(Some(true)) && ring.ring[i] != null && fresh(ring.ring[i])
          && ring.ring[i].name == node.name && ring.ring[i].isDown
          && ring.ring == old(ring.ring)[i := ring.ring[i]]
        case None => r == Ok(Some(false)) && ring.ring == old(ring.ring)
      ensures Occupied(ring.ring) == Occupied(old(ring.ring))
    {
      if node == null {
        return Ok(None);
      }
      var found :- ring.SoftDelete(node);
      return Ok(Some(found));
    }
  }
}
