/** What a program of `linked_ptr` operations should do, said without rings: which live handle holds
    which pointer, and which objects have been deleted. */
module OwnershipSpec {
  /** A raw pointer; 0 is NULL. */
  type Ptr = nat

  datatype State<!H> = State(owner: map<H, Ptr>, deleted: seq<Ptr>, captured: set<Ptr>)

  datatype Op<H> =
    | Construct(h: H, p: Ptr)
    | CopyConstruct(h: H, from: H)
    | Assign(h: H, from: H)
    | Reset(h: H, p: Ptr)
    | Destroy(h: H)

  /** The caller's side of the bargain: operands are live, and a raw pointer is handed over only once. */
  ghost predicate Allowed<H>(s: State<H>, op: Op<H>) {
    match op
    case Construct(h, p) => h !in s.owner && Fresh(s, p)
    case CopyConstruct(h, from) => h !in s.owner && from in s.owner
    case Assign(h, from) => h in s.owner && from in s.owner
    case Reset(h, p) => h in s.owner && Fresh(s, p)
    case Destroy(h) => h in s.owner
  }

  ghost predicate Fresh<H>(s: State<H>, p: Ptr) { p == 0 || p !in s.captured }

  /** Some handle other than `h` holds `p`. */
  ghost predicate HeldElsewhere<H>(s: State<H>, h: H, p: Ptr) {
    exists g :: g in s.owner && g != h && s.owner[g] == p
  }

  /** A handle lets go; the last holder of an object deletes it. */
  ghost function Released<H>(s: State<H>, h: H): State<H>
    requires h in s.owner
  {
    var p := s.owner[h];
    State(s.owner - {h},
          if p == 0 || HeldElsewhere(s, h, p) then s.deleted else s.deleted + [p],
          s.captured)
  }

  ghost function Captured<H>(s: State<H>, h: H, p: Ptr): State<H> {
    State(s.owner[h := p], s.deleted, if p == 0 then s.captured else s.captured + {p})
  }

  ghost function Copied<H>(s: State<H>, h: H, from: H): State<H>
    requires from in s.owner
  {
    s.(owner := s.owner[h := s.owner[from]])
  }

  ghost function Step<H>(s: State<H>, op: Op<H>): State<H>
    requires Allowed(s, op)
  {
    match op
    case Construct(h, p) => Captured(s, h, p)
    case CopyConstruct(h, from) => Copied(s, h, from)
    case Assign(h, from) => if h == from then s else Copied(Released(s, h), h, from)
    case Reset(h, p) => Captured(Released(s, h), h, p)
    case Destroy(h) => Released(s, h)
  }

  ghost predicate Runs<H>(s: State<H>, ops: seq<Op<H>>, t: State<H>)
    decreases |ops|
  {
    if ops == [] then s == t else Allowed(s, ops[0]) && Runs(Step(s, ops[0]), ops[1..], t)
  }

  /** Every object handed over is either still held and not deleted, or no longer held and deleted once. */
  ghost predicate ExactlyOnce<H>(s: State<H>) {
    && 0 !in s.captured
    && (forall h | h in s.owner :: s.owner[h] == 0 || s.owner[h] in s.captured)
    && (forall p :: multiset(s.deleted)[p] == if p in s.captured && p !in s.owner.Values then 1 else 0)
  }

  lemma ReleaseKeeps<H>(s: State<H>, h: H)
    requires ExactlyOnce(s) && h in s.owner
    ensures ExactlyOnce(Released(s, h))
  {
    var t := Released(s, h);
    forall p ensures p in t.owner.Values <==> HeldElsewhere(s, h, p) {
      if HeldElsewhere(s, h, p) {
        var g :| g in s.owner && g != h && s.owner[g] == p;
        assert g in t.owner && t.owner[g] == p;
      }
    }
    forall p ensures p in s.owner.Values <==> p == s.owner[h] || HeldElsewhere(s, h, p) {
    }
    var p := s.owner[h];
    assert multiset(s.deleted + [p]) == multiset(s.deleted) + multiset{p};
  }

  lemma CaptureKeeps<H>(s: State<H>, h: H, p: Ptr)
    requires ExactlyOnce(s) && h !in s.owner && Fresh(s, p)
    ensures ExactlyOnce(Captured(s, h, p))
  {
    var t := Captured(s, h, p);
    forall q ensures q in t.owner.Values <==> q == p || q in s.owner.Values {
      if q in s.owner.Values {
        var g :| g in s.owner && s.owner[g] == q;
        assert g in t.owner && t.owner[g] == q;
      }
      if q == p { assert h in t.owner && t.owner[h] == q; }
    }
  }

  lemma CopyKeeps<H>(s: State<H>, h: H, from: H)
    requires ExactlyOnce(s) && h !in s.owner && from in s.owner
    ensures ExactlyOnce(Copied(s, h, from))
  {
    var t := Copied(s, h, from);
    forall q ensures q in t.owner.Values <==> q in s.owner.Values {
      if q in s.owner.Values {
        var g :| g in s.owner && s.owner[g] == q;
        assert g in t.owner && t.owner[g] == q;
      }
    }
  }

  /** After any run of operations every object is deleted exactly once, by its last holder. */
  lemma {:induction false} RunDeletesExactlyOnce<H>(s: State<H>, ops: seq<Op<H>>, t: State<H>)
    requires ExactlyOnce(s) && Runs(s, ops, t)
    ensures ExactlyOnce(t)
    decreases |ops|
  {
    if ops != [] {
      match ops[0] {
        case Construct(h, p) => CaptureKeeps(s, h, p);
        case CopyConstruct(h, from) => CopyKeeps(s, h, from);
        case Assign(h, from) =>
          if h != from {
            ReleaseKeeps(s, h);
            CopyKeeps(Released(s, h), h, from);
          }
        case Reset(h, p) =>
          ReleaseKeeps(s, h);
          CaptureKeeps(Released(s, h), h, p);
        case Destroy(h) => ReleaseKeeps(s, h);
      }
      RunDeletesExactlyOnce(Step(s, ops[0]), ops[1..], t);
    }
  }

  /** Whatever the state, a caller may hand over NULL or any object that was not handed over before, share what any
      handle holds, and destroy any handle. */
  lemma AlwaysAllowed<H>(s: State<H>, h: H, from: H, p: Ptr)
    ensures p == 0 || p !in s.captured ==> Allowed(s, if h in s.owner then Reset(h, p) else Construct(h, p))
    ensures from in s.owner ==> Allowed(s, if h in s.owner then Assign(h, from) else CopyConstruct(h, from))
    ensures h in s.owner ==> Allowed(s, Destroy(h))
  {
  }

  /** What each operation does to the handles and to the objects handed over: it moves no other handle. After an
      assignment both handles hold the object of the second. */
  lemma StepMoves<H>(s: State<H>, op: Op<H>)
    requires Allowed(s, op)
    ensures var t := Step(s, op);
            match op
            case Construct(h, p) => t.owner == s.owner[h := p] && t.captured == s.captured + if p == 0 then {} else {p}
            case CopyConstruct(h, from) => t.owner == s.owner[h := s.owner[from]] && t.captured == s.captured
            case Assign(h, from) =>
              && t.owner == s.owner[h := s.owner[from]] && t.owner[h] == t.owner[from] && t.captured == s.captured
            case Reset(h, p) => t.owner == s.owner[h := p] && t.captured == s.captured + if p == 0 then {} else {p}
            case Destroy(h) => t.owner == s.owner - {h} && t.captured == s.captured
  {
    if op.Assign? {
      assert s.owner[op.h := s.owner[op.from]] == (s.owner - {op.h})[op.h := s.owner[op.from]];
    } else if op.Reset? {
      assert s.owner[op.h := op.p] == (s.owner - {op.h})[op.h := op.p];
    }
  }

  /** An operation deletes an object exactly when it takes away its last holder. */
  lemma StepDeletes<H>(s: State<H>, op: Op<H>, p: Ptr)
    requires ExactlyOnce(s) && Allowed(s, op)
    ensures var t := Step(s, op);
            multiset(t.deleted)[p] == multiset(s.deleted)[p] +
              if p != 0 && p in s.owner.Values && p !in t.owner.Values then 1 else 0
  {
    StepMoves(s, op);
    RunDeletesExactlyOnce(s, [op], Step(s, op));
  }

  /** Nothing leaks and nothing is deleted twice: once a program that began with no handles has
      destroyed them all, the deletions are exactly the objects handed over, each one once. */
  lemma NoLeakNoDoubleDelete<H>(ops: seq<Op<H>>, t: State<H>)
    requires Runs(State(map[], [], {}), ops, t)
    requires t.owner == map[]
    ensures multiset(t.deleted) == multiset(t.captured)
  {
    RunDeletesExactlyOnce(State(map[], [], {}), ops, t);
  }
}

/** `linked_ptr`: handles that share an object are linked into a ring through `next`, and the last one
    to leave the ring deletes the object. A handle and the link embedded in it are one object here. */
module LinkedPtr {
  import opened OwnershipSpec

  ghost predicate IsRing(ring: seq<Handle>)
    reads ring
  {
    && ring != []
    && (forall i, j | 0 <= i < j < |ring| :: ring[i] != ring[j])
    && (forall i, j | 0 <= i && j == i + 1 && j < |ring| :: ring[i].next == ring[j])
    && ring[|ring| - 1].next == ring[0]
  }

  ghost function Rotated(ring: seq<Handle>, k: nat): seq<Handle>
    requires k < |ring|
  {
    ring[k..] + ring[..k]
  }

  ghost function Last(ring: seq<Handle>): Handle
    requires ring != []
  {
    ring[|ring| - 1]
  }

  lemma NextIsFirst(ring: seq<Handle>, i: nat)
    requires IsRing(ring) && i < |ring|
    ensures ring[i].next == ring[0] <==> i == |ring| - 1
  {
    if i < |ring| - 1 { assert ring[i].next == ring[i + 1]; }
  }

  lemma RotatedIsRing(ring: seq<Handle>, k: nat)
    requires IsRing(ring) && k < |ring|
    ensures IsRing(Rotated(ring, k))
    ensures forall h :: h in Rotated(ring, k) <==> h in ring
  {
    if k == 0 {
      assert Rotated(ring, 0) == ring;
    } else {
      RotatedIsRing(ring, k - 1);
      RotatedOnceIsRing(Rotated(ring, k - 1));
      assert Rotated(Rotated(ring, k - 1), 1) == Rotated(ring, k);
    }
  }

  lemma RotatedOnceIsRing(ring: seq<Handle>)
    requires IsRing(ring) && |ring| > 1
    ensures IsRing(Rotated(ring, 1))
    ensures forall h :: h in Rotated(ring, 1) <==> h in ring
  {
    var r := Rotated(ring, 1);
    assert r == ring[1..] + [ring[0]];
    assert ring == [ring[0]] + ring[1..];
  }

  /** The memory of the program: its live handles, the ring of each object, and the `delete`s so far. */
  class Heap {
    var deleted: seq<Ptr>
    ghost var live: set<Handle>
    ghost var rings: map<Ptr, seq<Handle>>
    ghost var captured: set<Ptr>

    constructor ()
      ensures Valid() && Abstract() == State(map[], [], {}) && live == {}
    {
      deleted, live, rings, captured := [], {}, map[], {};
    }

    /** The live handles form disjoint rings: one for each owned object, holding exactly its handles,
        and a null handle alone. */
    ghost predicate Valid()
      reads this, live
    {
      Members() && Rings() && Covered() && Ledger()
    }

    ghost predicate Members()
      reads this, live
    {
      forall p, h | p in rings && h in rings[p] :: h in live && h.value == p
    }

    ghost predicate Rings()
      requires Members()
      reads this, live
    {
      forall p | p in rings :: IsRing(rings[p])
    }

    ghost predicate Covered()
      reads this, live
    {
      forall h | h in live :: if h.value == 0 then h.next == h else h.value in rings && h in rings[h.value]
    }

    ghost predicate Ledger()
      reads this
    {
      && 0 !in rings && 0 !in deleted
      && (forall i, j | 0 <= i < j < |deleted| :: deleted[i] != deleted[j])
      && (forall p | p in rings :: p !in deleted)
      && (forall p :: p in captured <==> p in rings || p in deleted)
    }

    ghost function Abstract(): State<Handle>
      reads this, live
    {
      State(map h | h in live :: h.value, deleted, captured)
    }
  }

  lemma {:induction false} CountDistinct(s: seq<Ptr>, p: Ptr)
    requires forall i, j | 0 <= i < j < |s| :: s[i] != s[j]
    ensures multiset(s)[p] == if p in s then 1 else 0
  {
    if s != [] {
      CountDistinct(s[1..], p);
      assert s == [s[0]] + s[1..];
    }
  }

  /** In every heap the operations leave behind, each object handed over is held and not deleted, or unheld and
      deleted once. */
  lemma ValidIsExactlyOnce(heap: Heap)
    requires heap.Valid()
    ensures ExactlyOnce(heap.Abstract())
  {
    var s := heap.Abstract();
    forall p ensures multiset(s.deleted)[p] == if p in s.captured && p !in s.owner.Values then 1 else 0 {
      CountDistinct(s.deleted, p);
      if p in heap.rings {
        var h := heap.rings[p][0];
        assert h in s.owner && s.owner[h] == p;
      }
    }
  }

  /** The ring of `h`, read from `h` on. */
  lemma RingFrom(heap: Heap, h: Handle) returns (ring: seq<Handle>)
    requires heap.Valid() && h in heap.live && h.value != 0
    ensures IsRing(ring) && ring[0] == h
    ensures forall g :: g in ring <==> g in heap.rings[h.value]
    ensures ring[|ring| - 1] in heap.live
  {
    var k :| 0 <= k < |heap.rings[h.value]| && heap.rings[h.value][k] == h;
    ring := Rotated(heap.rings[h.value], k);
    RotatedIsRing(heap.rings[h.value], k);
    assert ring[|ring| - 1] in ring;
  }

  /** An object has another holder exactly when its ring has a second member. */
  lemma HeldIffShared(heap: Heap, h: Handle, ring: seq<Handle>)
    requires heap.Valid() && h in heap.live && h.value != 0
    requires IsRing(ring) && ring[0] == h
    requires forall g :: g in ring <==> g in heap.rings[h.value]
    ensures HeldElsewhere(heap.Abstract(), h, h.value) <==> |ring| > 1
  {
    var s := heap.Abstract();
    if |ring| > 1 {
      var g := ring[1];
      assert g in ring && ring[0] != ring[1];
      assert g in s.owner && s.owner[g] == g.value;
    }
    if HeldElsewhere(s, h, h.value) {
      var g :| g in s.owner && g != h && s.owner[g] == h.value;
      assert g in ring;
    }
  }

  /** Relinking within one ring leaves every other ring alone. */
  twostate lemma OtherRingsKept(heap: Heap, new v: Ptr)
    requires old(heap.Valid())
    requires forall h | h in old(heap.live) :: h.value == old(h.value)
    requires forall h | h in old(heap.live) && h.value != v :: h.next == old(h.next)
    ensures forall p | p in old(heap.rings) && p != v :: IsRing(old(heap.rings)[p])
  {
    forall p | p in old(heap.rings) && p != v ensures IsRing(old(heap.rings)[p]) {
      assert old(IsRing(heap.rings[p]));
    }
  }

  /** Removing `h`, whose ring from `h` on is `ring`, gives valid rings again. */
  twostate lemma ValidAfterDepart(heap: Heap, new h: Handle, new ring: seq<Handle>)
    requires old(heap.Valid()) && h in old(heap.live)
    requires heap.live == old(heap.live) - {h} && heap.captured == old(heap.captured)
    requires forall g | g in old(heap.live) :: g.value == old(g.value)
    requires forall g | g in old(heap.live) && g.value != h.value :: g.next == old(g.next)
    requires if h.value == 0 then forall g | g in heap.live :: g.next == old(g.next) else
      && h.value in old(heap.rings) && ring != [] && ring[0] == h && h !in ring[1..]
      && forall g :: g in ring <==> g in old(heap.rings)[h.value]
    requires h.value != 0 && |ring| > 1 ==> IsRing(ring[1..])
    requires heap.rings == if h.value == 0 then old(heap.rings)
                           else if |ring| > 1 then old(heap.rings)[h.value := ring[1..]]
                           else old(heap.rings) - {h.value}
    requires heap.deleted == if h.value != 0 && |ring| == 1 then old(heap.deleted) + [h.value] else old(heap.deleted)
    ensures heap.Valid()
  {
    var v := h.value;
    assert heap.Members() by {
      forall p, g | p in heap.rings && g in heap.rings[p] ensures g in heap.live && g.value == p {
        if p == v {
          assert g in ring && g != ring[0];
        }
      }
    }
    assert heap.Rings() by {
      OtherRingsKept(heap, v);
    }
    assert heap.Covered() by {
      forall g | g in heap.live && g.value == v && v != 0 ensures v in heap.rings && g in heap.rings[v] {
        assert g in ring && ring[0] == h;
        assert |ring| == 1 ==> ring == [h];
        assert |ring| > 1 ==> ring == [h] + ring[1..];
      }
    }
  }

  /** Adding `h` alone, or at the end of `ring`, gives valid rings again. */
  twostate lemma ValidAfterJoin(heap: Heap, new h: Handle, new ring: seq<Handle>)
    requires old(heap.Valid()) && h !in old(heap.live)
    requires heap.live == old(heap.live) + {h} && heap.deleted == old(heap.deleted)
    requires forall g | g in old(heap.live) :: g.value == old(g.value)
    requires forall g | g in old(heap.live) && (h.value == 0 || g.value != h.value) :: g.next == old(g.next)
    requires h.value == 0 ==> h.next == h
    requires h.value != 0 ==> IsRing(ring + [h])
    requires h.value != 0 ==> (forall g :: g in ring <==> h.value in old(heap.rings) && g in old(heap.rings)[h.value])
    requires h.value != 0 && ring == [] ==> h.value !in old(heap.captured)
    requires heap.captured == if h.value == 0 then old(heap.captured) else old(heap.captured) + {h.value}
    requires heap.rings == if h.value == 0 then old(heap.rings) else old(heap.rings)[h.value := ring + [h]]
    requires ring != [] ==> h.value in old(heap.rings)
    ensures heap.Valid()
  {
    var v := h.value;
    assert heap.Members() by {
      forall p, g | p in heap.rings && g in heap.rings[p] ensures g in heap.live && g.value == p {
        if p == v {
          assert g in ring || g == h;
        }
      }
    }
    assert heap.Rings() by {
      OtherRingsKept(heap, v);
    }
    assert heap.Covered();
  }

  twostate lemma AbstractAfterDepart(heap: Heap, new h: Handle, new shared: bool)
    requires h in old(heap.live) && heap.live == old(heap.live) - {h} && heap.captured == old(heap.captured)
    requires forall g | g in heap.live :: g.value == old(g.value)
    requires old(h.value) != 0 ==> shared == HeldElsewhere(old(heap.Abstract()), h, old(h.value))
    requires heap.deleted == old(heap.deleted) + if old(h.value) == 0 || shared then [] else [old(h.value)]
    ensures heap.Abstract() == Released(old(heap.Abstract()), h)
  {
    assert heap.Abstract().owner == old(heap.Abstract()).owner - {h};
  }

  twostate lemma OwnersAfterJoin(heap: Heap, new h: Handle)
    requires heap.live == old(heap.live) + {h} && h !in old(heap.live)
    requires forall g | g in old(heap.live) :: g.value == old(g.value)
    ensures heap.Abstract().owner == old(heap.Abstract()).owner[h := h.value]
  {
  }

  class Handle {
    var value: Ptr
    var next: Handle?

    // -------------------------------------------------------------- linked_ptr_internal

    /** A circle of this handle only. */
    method JoinNew()
      modifies this`next
      ensures IsRing([this])
    {
      next := this;
    }

    /** Walks the circle from `ptr` to its last member and enters after it. */
    method Join(ptr: Handle, ghost ring: seq<Handle>)
      requires IsRing(ring) && ring[0] == ptr && this !in ring
      modifies this`next, Last(ring)`next
      ensures IsRing(ring + [this])
    {
      var p := ptr;
      ghost var i := 0;
      while p.next != ptr
        invariant 0 <= i < |ring| && p == ring[i]
        decreases |ring| - i
      {
        p := p.next;
        i := i + 1;
      }
      NextIsFirst(ring, i);
      p.next := this;
      next := ptr;
    }

    /** Unlinks this handle; true when it was the only member of its circle. */
    method Unlink(ghost ring: seq<Handle>) returns (last: bool)
      requires IsRing(ring) && ring[0] == this
      modifies Last(ring)`next
      ensures last <==> |ring| == 1
      ensures !last ==> IsRing(ring[1..])
    {
      NextIsFirst(ring, 0);
      if next == this {
        return true;
      }
      var p := next;
      ghost var i := 1;
      while p.next != this
        invariant 1 <= i < |ring| && p == ring[i]
        decreases |ring| - i
      {
        p := p.next;
        i := i + 1;
      }
      NextIsFirst(ring, i);
      p.next := next;
      return false;
    }

    // -------------------------------------------------------------- private members of linked_ptr

    method Depart(heap: Heap)
      requires heap.Valid() && this in heap.live
      modifies heap, heap.live
      ensures heap.Valid() && heap.live == old(heap.live) - {this}
      ensures heap.Abstract() == Released(old(heap.Abstract()), this)
    {
      ghost var ring;
      var last;
      last, ring := Leave(heap);
      if last && value != 0 {
        heap.deleted := heap.deleted + [value];
      }
      heap.live := heap.live - {this};
      heap.rings := if value == 0 then heap.rings
                    else if |ring| > 1 then heap.rings[value := ring[1..]]
                    else heap.rings - {value};
      AbstractAfterDepart(heap, this, !last);
      ValidAfterDepart(heap, this, ring);
    }

    /** Leaves the ring, before the handle ceases to count as live. */
    method Leave(heap: Heap) returns (last: bool, ghost ring: seq<Handle>)
      requires heap.Valid() && this in heap.live
      modifies heap.live
      ensures forall g | g in heap.live :: g.value == old(g.value)
      ensures forall g | g in heap.live && g.value != value :: g.next == old(g.next)
      ensures ring != [] && (last <==> |ring| == 1)
      ensures value == 0 ==> ring == [this] && forall g | g in heap.live && g != this :: g.next == old(g.next)
      ensures value != 0 ==> value in heap.rings && ring[0] == this && this !in ring[1..]
      ensures value != 0 ==> forall g :: g in ring <==> g in heap.rings[value]
      ensures value != 0 && !last ==> IsRing(ring[1..])
      ensures value != 0 ==> (last <==> !HeldElsewhere(old(heap.Abstract()), this, value))
    {
      ring := [this];
      if value != 0 {
        ring := RingFrom(heap, this);
        HeldIffShared(heap, this, ring);
        assert forall j | 1 <= j < |ring| :: ring[j] != ring[0];
      }
      assert Last(ring) in heap.live;
      last := Unlink(ring);
    }

    method Capture(heap: Heap, ptr: Ptr)
      requires heap.Valid() && this !in heap.live && Fresh(heap.Abstract(), ptr)
      modifies heap, this
      ensures heap.Valid() && heap.live == old(heap.live) + {this}
      ensures heap.Abstract() == Captured(old(heap.Abstract()), this, ptr)
    {
      value := ptr;
      JoinNew();
      heap.live := heap.live + {this};
      if ptr != 0 {
        heap.rings := heap.rings[ptr := [this]];
        heap.captured := heap.captured + {ptr};
      }
      assert [] + [this] == [this];
      ValidAfterJoin(heap, this, []);
      OwnersAfterJoin(heap, this);
    }

    method Copy(heap: Heap, ptr: Handle)
      requires heap.Valid() && this !in heap.live && ptr in heap.live
      modifies heap, heap.live, this
      ensures heap.Valid() && heap.live == old(heap.live) + {this}
      ensures heap.Abstract() == Copied(old(heap.Abstract()), this, ptr)
    {
      ghost var ring := Link(heap, ptr);
      if value != 0 {
        heap.rings := heap.rings[value := ring + [this]];
      }
      heap.live := heap.live + {this};
      ValidAfterJoin(heap, this, ring);
      OwnersAfterJoin(heap, this);
    }

    /** Takes the pointer and enters the ring, before the handle counts as live. */
    method Link(heap: Heap, ptr: Handle) returns (ghost ring: seq<Handle>)
      requires heap.Valid() && this !in heap.live && ptr in heap.live
      modifies heap.live, this
      ensures value == old(ptr.value)
      ensures forall g | g in heap.live :: g.value == old(g.value)
      ensures forall g | g in heap.live && (value == 0 || g.value != value) :: g.next == old(g.next)
      ensures value == 0 ==> next == this && ring == []
      ensures value != 0 ==> ring != [] && IsRing(ring + [this]) && value in heap.rings
      ensures value != 0 ==> forall g :: g in ring <==> g in heap.rings[value]
    {
      value := ptr.value;
      ring := [];
      if value != 0 {
        ring := RingFrom(heap, ptr);
        Join(ptr, ring);
      } else {
        JoinNew();
      }
    }

    // -------------------------------------------------------------- linked_ptr

    constructor (heap: Heap, ptr: Ptr)
      requires heap.Valid() && Fresh(heap.Abstract(), ptr)
      modifies heap
      ensures heap.Valid() && heap.live == old(heap.live) + {this} && fresh(this)
      ensures heap.Abstract() == Captured(old(heap.Abstract()), this, ptr)
    {
      new;
      Capture(heap, ptr);
    }

    constructor CopyFrom(heap: Heap, ptr: Handle)
      requires heap.Valid() && ptr in heap.live
      modifies heap, heap.live
      ensures heap.Valid() && heap.live == old(heap.live) + {this} && fresh(this)
      ensures heap.Abstract() == Copied(old(heap.Abstract()), this, ptr)
    {
      new;
      Copy(heap, ptr);
    }

    method Destroy(heap: Heap)
      requires heap.Valid() && this in heap.live
      modifies heap, heap.live
      ensures heap.Valid() && heap.live == old(heap.live) - {this}
      ensures heap.Abstract() == Step(old(heap.Abstract()), Op.Destroy(this))
    {
      Depart(heap);
    }

    method Assign(heap: Heap, ptr: Handle)
      requires heap.Valid() && this in heap.live && ptr in heap.live
      modifies heap, heap.live
      ensures heap.Valid() && heap.live == old(heap.live)
      ensures heap.Abstract() == Step(old(heap.Abstract()), Op.Assign(this, ptr))
    {
      if ptr != this {
        Depart(heap);
        Copy(heap, ptr);
      }
    }

    method Reset(heap: Heap, ptr: Ptr)
      requires heap.Valid() && this in heap.live && Fresh(heap.Abstract(), ptr)
      modifies heap, heap.live
      ensures heap.Valid() && heap.live == old(heap.live)
      ensures heap.Abstract() == Step(old(heap.Abstract()), Op.Reset(this, ptr))
    {
      Depart(heap);
      Capture(heap, ptr);
      assert heap.live == (old(heap.live) - {this}) + {this};
    }
  }
}
