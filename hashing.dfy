/** Nodes of the consistent-hashing ring and the pure description of how the
    ring's slot table evolves (ConsistentNode, ConsistentHashing.Hash and the
    placement rules of ConsistentHashing.Ring in main.py).

    A ring is a sequence of slots, each empty (`null`, Python's `None`) or
    holding a node. The md5 digest is a parameter: any `string -> nat`. */
module Hashing {
  import opened Outcomes

  /** `str(b)` for a Python bool. */
  function BoolText(b: bool): (r: string)
    ensures 0 < |r| && (r[0] == 'T' <==> b)
  {
    if b then "True" else "False"
  }

  /** A server on the ring (ConsistentNode). Nothing writes its fields after
      construction, so they are constants. Two nodes are the same node only
      when they are the same object, which is what Python's `is` tests. */
  class Node {
    const name: string
    const isDown: bool

    /** `ConsistentNode(name)`: a node that is up. */
    constructor (name: string)
      ensures this.name == name && !isDown
    {
      this.name := name;
      isDown := false;
    }

    /** `ConsistentNode(name)` followed by `is_down = True`, as soft_delete builds it. */
    constructor MarkedDown(name: string)
      ensures this.name == name && isDown
    {
      this.name := name;
      isDown := true;
    }

    /** `str(node)`: the text that is hashed to place the node. */
    function Text(): (r: string)
      ensures |name| + 1 < |r| && r[..|name|] == name && r[|name|] == ' '
      ensures r[|name| + 1] == 'T' <==> isDown
    {
      name + " " + BoolText(isDown)
    }
  }

  /** A node and its marked-down copy hash different texts, so they need not
      share a home slot. */
  lemma MarkedDownTextDiffers(up: Node, down: Node)
    requires up.name == down.name && !up.isDown && down.isDown
    ensures up.Text() != down.Text()
  {
    assert |up.Text()| == |up.name| + 6;
    assert |down.Text()| == |down.name| + 5;
    assert up.Text()[|up.name| + 1] == 'F';
    assert down.Text()[|down.name| + 1] == 'T';
  }

  /** `Hash.find_index(key, capacity)`: the digest of the key's text modulo the
      capacity. A `None` key raises ValueError before anything is hashed; a
      zero capacity raises ZeroDivisionError. */
  function FindIndex(md5: string -> nat, key: Option<string>, capacity: nat): (r: Result<nat>)
    ensures key.None? <==> r == Err(ValueError)
    ensures key.Some? && capacity == 0 <==> r == Err(ZeroDivision)
    ensures r.Ok? ==> r.value < capacity
  {
    if key.None? then Err(ValueError)
    else if capacity == 0 then Err(ZeroDivision)
    else Ok(md5(key.value) % capacity)
  }

  /** The number of occupied slots. */
  function Occupied(s: seq<Node?>): nat {
    if s == [] then 0
    else Occupied(s[..|s| - 1]) + (if s[|s| - 1] != null then 1 else 0)
  }

  /** Writing one slot changes the occupied count only by what left and what came in. */
  lemma {:induction false} OccupiedReplace(s: seq<Node?>, i: nat, n: Node?)
    requires i < |s|
    ensures Occupied(s[i := n]) == Occupied(s) - (if s[i] != null then 1 else 0) + (if n != null then 1 else 0)
  {
    var t := s[i := n];
    if i < |s| - 1 {
      assert t[..|t| - 1] == s[..|s| - 1][i := n];
      OccupiedReplace(s[..|s| - 1], i, n);
    } else {
      assert t[..|t| - 1] == s[..|s| - 1];
    }
  }

  /** The first index in [lo, hi) whose slot holds exactly `x`, scanning upwards. */
  function FirstIndexOf(s: seq<Node?>, x: Node?, lo: nat, hi: nat): (r: Option<nat>)
    requires lo <= hi <= |s|
    ensures r.Some? ==> lo <= r.value < hi && s[r.value] == x
    ensures r.Some? ==> forall j :: lo <= j < r.value ==> s[j] != x
    ensures r.None? <==> forall j :: lo <= j < hi ==> s[j] != x
    decreases hi - lo
  {
    if lo == hi then None
    else if s[lo] == x then Some(lo)
    else FirstIndexOf(s, x, lo + 1, hi)
  }

  /** A first match is the only index that is a match with no match before it. */
  lemma FirstIndexOfIs(s: seq<Node?>, x: Node?, lo: nat, hi: nat, i: nat)
    requires lo <= i < hi <= |s|
    requires s[i] == x && forall j :: lo <= j < i ==> s[j] != x
    ensures FirstIndexOf(s, x, lo, hi) == Some(i)
  {
  }

  /** The search order of `update`: slots home..cap-1, then slots 0..home-1.
      Only the first `cap` slots are searched, whatever the length of `s`. */
  function ProbeFind(s: seq<Node?>, x: Node?, home: nat, cap: nat): (r: Option<nat>)
    requires home < cap <= |s|
    ensures r.Some? <==> exists j :: 0 <= j < cap && s[j] == x
    ensures r.Some? ==> r.value < cap && s[r.value] == x
    ensures r.Some? && home <= r.value ==> forall j :: home <= j < r.value ==> s[j] != x
    ensures r.Some? && r.value < home ==>
      (forall j :: home <= j < cap ==> s[j] != x) && (forall j :: 0 <= j < r.value ==> s[j] != x)
  {
    match FirstIndexOf(s, x, home, cap)
    case Some(i) => Some(i)
    case None => FirstIndexOf(s, x, 0, home)
  }

  /** The slot `update(target, replacement)` overwrites, if any (main.py:364-379).
      When the target sits in its own home slot and the replacement is `None`
      (a hard delete), the guard at main.py:365-367 fails and nothing is found. */
  function UpdateSlot(md5: string -> nat, s: seq<Node?>, cap: nat, target: Node, replacement: Node?): (r: Option<nat>)
    requires 0 < cap <= |s|
    ensures r.Some? ==> r.value < cap && s[r.value] == target
    ensures replacement == null && s[md5(target.Text()) % cap] == target ==> r == None
    ensures replacement != null || s[md5(target.Text()) % cap] != target ==>
      (r.Some? <==> exists j :: 0 <= j < cap && s[j] == target)
  {
    var home := md5(target.Text()) % cap;
    if s[home] == target && replacement == null then None
    else ProbeFind(s, target, home, cap)
  }

  /** The probe loop of `expand_ring`, which has no `break`: `v` goes into every
      empty slot from `idx` to the end. */
  function FillFrom(t: seq<Node?>, v: Node, idx: nat): (r: seq<Node?>)
    ensures |r| == |t|
    ensures forall j :: idx <= j < |t| ==> r[j] != null
    ensures forall j :: 0 <= j < |t| ==> r[j] == t[j] || (idx <= j && t[j] == null && r[j] == v)
  {
    seq(|t|, j requires 0 <= j < |t| => if idx <= j && t[j] == null then v else t[j])
  }

  /** Where `expand_ring` puts one old node into the new table. */
  function Place(t: seq<Node?>, v: Node, idx: nat): (u: seq<Node?>)
    requires idx < |t|
    ensures |u| == |t|
    ensures forall j :: 0 <= j < |t| ==> u[j] == t[j] || (t[j] == null && u[j] == v)
  {
    if t[idx] == null then t[idx := v] else FillFrom(t, v, idx)
  }

  /** The new table of `expand_ring`: the old nodes placed in order into `n`
      empty slots, each at its digest modulo `n`. */
  function Rehash(md5: string -> nat, vals: seq<Node?>, n: nat): (t: seq<Node?>)
    requires 0 < n && null !in vals
    ensures |t| == n
    decreases |vals|
  {
    if vals == [] then seq(n, _ => null)
    else
      var last := vals[|vals| - 1];
      Place(Rehash(md5, vals[..|vals| - 1], n), last, md5(last.Text()) % n)
  }

  /** Every occupied slot of the new table holds a node of the old one. */
  lemma {:induction false} RehashKeepsOnlyOldNodes(md5: string -> nat, vals: seq<Node?>, n: nat)
    requires 0 < n && null !in vals
    ensures forall j :: 0 <= j < n && Rehash(md5, vals, n)[j] != null ==> Rehash(md5, vals, n)[j] in vals
  {
    if vals != [] {
      var init := vals[..|vals| - 1];
      RehashKeepsOnlyOldNodes(md5, init, n);
      forall j | 0 <= j < n && Rehash(md5, vals, n)[j] != null
        ensures Rehash(md5, vals, n)[j] in vals
      {
        var v := Rehash(md5, init, n)[j];
        if v != null {
          assert v in init;
          assert forall k :: 0 <= k < |init| ==> init[k] == vals[k];
        }
      }
    }
  }

  /** `expand_ring` (main.py:302-330) on slots `s` and capacity `cap`: nothing
      happens unless every slot is occupied; otherwise the table is rebuilt with
      capacity `2 * cap + 1`, holding only nodes of the old table. */
  function Expanded(md5: string -> nat, s: seq<Node?>, cap: nat): (r: (seq<Node?>, nat))
    ensures null in s ==> r == (s, cap)
    ensures null !in s ==> r.1 == 2 * cap + 1 && |r.0| == r.1
    ensures forall j :: 0 <= j < |r.0| && r.0[j] != null ==> r.0[j] in s
  {
    if null in s then (s, cap)
    else
      RehashKeepsOnlyOldNodes(md5, s, 2 * cap + 1);
      (Rehash(md5, s, 2 * cap + 1), 2 * cap + 1)
  }

  /** `put_server(node)` (main.py:272-289) on slots `s` and capacity `cap`: the
      home slot is the digest modulo `|s|` (not `cap`); the node goes into the
      first empty slot at or after home. With none there, there is no
      wrap-around: only when slot `home - 1` is occupied is the node appended
      and `expand_ring` run; otherwise the node is dropped. */
  function Put(md5: string -> nat, s: seq<Node?>, cap: nat, node: Node): (r: (seq<Node?>, nat))
    requires 0 < |s|
    ensures cap <= |s| ==> r.1 <= |r.0|
    ensures forall j :: 0 <= j < |r.0| && r.0[j] != null ==> r.0[j] in s || r.0[j] == node
  {
    var home := md5(node.Text()) % |s|;
    match FirstIndexOf(s, null, home, |s|)
    case Some(i) => (s[i := node], cap)
    case None =>
      if 0 < home && s[home - 1] != null then Expanded(md5, s + [node], cap)
      else (s, cap)
  }

  /** The node goes into the first empty slot at or after its home slot;
      every other slot and the capacity are unchanged. */
  lemma PutIntoFirstEmpty(md5: string -> nat, s: seq<Node?>, cap: nat, node: Node, i: nat)
    requires 0 < |s|
    requires md5(node.Text()) % |s| <= i < |s|
    requires s[i] == null
    requires forall j :: md5(node.Text()) % |s| <= j < i ==> s[j] != null
    ensures Put(md5, s, cap, node) == (s[i := node], cap)
  {
    FirstIndexOfIs(s, null, md5(node.Text()) % |s|, |s|, i);
  }

  /** No empty slot from home to the end, and slot `home - 1` empty (or home is
      slot 0): the node is silently dropped. */
  lemma PutDropsWithoutWrapAround(md5: string -> nat, s: seq<Node?>, cap: nat, node: Node)
    requires 0 < |s|
    requires forall j :: md5(node.Text()) % |s| <= j < |s| ==> s[j] != null
    requires md5(node.Text()) % |s| == 0 || s[md5(node.Text()) % |s| - 1] == null
    ensures Put(md5, s, cap, node) == (s, cap)
  {
  }

  /** No empty slot from home to the end and slot `home - 1` occupied: the node
      is appended and, when that fills every slot, the table grows to
      `2 * cap + 1` slots holding only the old nodes and the new one. */
  lemma PutAppendsThenExpands(md5: string -> nat, s: seq<Node?>, cap: nat, node: Node)
    requires 0 < |s|
    requires forall j :: md5(node.Text()) % |s| <= j < |s| ==> s[j] != null
    requires 0 < md5(node.Text()) % |s| && s[md5(node.Text()) % |s| - 1] != null
    ensures Put(md5, s, cap, node) == Expanded(md5, s + [node], cap)
    ensures null in s ==> Put(md5, s, cap, node) == (s + [node], cap)
    ensures null !in s ==> Put(md5, s, cap, node).1 == 2 * cap + 1
  {
    if null !in s {
      assert null !in s + [node];
    } else {
      assert null in s + [node];
    }
  }

  /** A full ring of capacity 2 can lose the node being registered, and a
      colliding node can occupy several slots, because the probe loop of
      `expand_ring` has no `break`: with a digest that sends `c` to 1 and all
      else to 0, registering `c` in `[a, b]` gives `[a, b, b, b, b]`. */
  lemma PutCanLoseNodeOnExpansion(a: Node, b: Node, c: Node)
    requires a.Text() != c.Text() && b.Text() != c.Text() && c != a && c != b
    ensures var md5 := (t: string) => if t == c.Text() then 1 else 0;
      Put(md5, [a, b], 2, c) == ([a, b, b, b, b], 5) && c !in Put(md5, [a, b], 2, c).0
  {
    var md5 := (t: string) => if t == c.Text() then 1 else 0;
    var s: seq<Node?> := [a, b];
    assert FirstIndexOf(s, null, 1, 2) == None;
    var vals: seq<Node?> := s + [c];
    assert null !in vals;
    var e: seq<Node?> := seq(5, _ => null);
    assert vals[..2][..1] == [a];
    assert vals[..2] == [a, b];
    assert [a][..0] == [];
    assert md5(a.Text()) == 0 && md5(b.Text()) == 0 && md5(c.Text()) == 1;
    assert Rehash(md5, [], 5) == e;
    var t1 := Rehash(md5, [a], 5);
    assert t1 == e[0 := a];
    var t2 := Rehash(md5, [a, b], 5);
    assert t2 == FillFrom(t1, b, 0);
    assert t2 == [a, b, b, b, b];
    var t3 := Rehash(md5, vals, 5);
    assert t3 == FillFrom(t2, c, 1);
    assert t3 == [a, b, b, b, b];
  }
}
