/**
 * Ownership of a resource by a movable handle that releases it: one handle, and a pool of handles
 * under any sequence of construction, move, assignment, reset and destruction.
 */
module UniqueResources {

  const INVALID_VALUE := -1

  /** A deleter that can be called, one default-constructed, or one that has been moved out of. */
  datatype Deleter = Present | Empty | MovedFrom

  datatype Handle = Handle(resource: int, deleter: Deleter)

  predicate Valid(h: Handle) {
    h.resource != INVALID_VALUE
  }

  /** A failed system call gives -1, which no handle treats as a resource; every other value is one. */
  lemma ValidExactlyWhen(h: Handle)
    ensures Valid(h) <==> h.resource != -1
  {
  }

  /**
   * Everything put under a handle so far, everything released so far, and everything that a deleter
   * was called on that cannot be called.
   */
  datatype Ledger = Ledger(wrapped: seq<int>, released: seq<int>, faulted: seq<int>)

  // ---------- One handle ----------

  /** What `Reset` does to the world: the deleter is called on a valid resource, and only then. */
  function Released(l: Ledger, h: Handle): Ledger {
    if !Valid(h) then l
    else if h.deleter.Present? then l.(released := l.released + [h.resource])
    else l.(faulted := l.faulted + [h.resource])
  }

  /**
   * A reset of -1 calls nothing; a reset of anything else calls the deleter, which is a fault if the
   * deleter is empty or has been moved out of.
   */
  lemma ResetCalls(l: Ledger, r: int, d: Deleter)
    ensures Released(l, Handle(r, d)) ==
            if r == -1 then l
            else match d
                 case Present => Ledger(l.wrapped, l.released + [r], l.faulted)
                 case Empty => Ledger(l.wrapped, l.released, l.faulted + [r])
                 case MovedFrom => Ledger(l.wrapped, l.released, l.faulted + [r])
    ensures Emptied(Handle(r, d)) == Handle(-1, d)
  {
  }

  function Wrapped(l: Ledger, resource: int): Ledger {
    if resource == INVALID_VALUE then l else l.(wrapped := l.wrapped + [resource])
  }

  function Emptied(h: Handle): Handle {
    h.(resource := INVALID_VALUE)
  }

  const MOVED_OUT := Handle(INVALID_VALUE, MovedFrom)

  class World {
    ghost var ledger: Ledger

    constructor ()
      ensures ledger == Ledger([], [], [])
    {
      ledger := Ledger([], [], []);
    }
  }

  class UniqueResource {
    const world: World
    var resource: int
    var deleter: Deleter

    ghost function Abs(): Handle
      reads this
    {
      Handle(resource, deleter)
    }

    constructor (world: World, resource: int, deleter: Deleter)
      modifies world
      ensures this.world == world && Abs() == Handle(resource, deleter)
      ensures world.ledger == Wrapped(old(world.ledger), resource)
    {
      this.world := world;
      this.resource := resource;
      this.deleter := deleter;
      new;
      world.ledger := Wrapped(world.ledger, resource);
    }

    constructor MoveFrom(other: UniqueResource)
      modifies other
      ensures world == other.world
      ensures Abs() == old(other.Abs()) && other.Abs() == MOVED_OUT
    {
      world := other.world;
      resource := other.resource;
      deleter := other.deleter;
      new;
      other.resource := INVALID_VALUE;
      other.deleter := MovedFrom;
    }

    method Reset()
      modifies this`resource, world
      ensures Abs() == Emptied(old(Abs()))
      ensures world.ledger == Released(old(world.ledger), old(Abs()))
    {
      if resource != INVALID_VALUE {
        world.ledger := Released(world.ledger, Abs());
      }
      resource := INVALID_VALUE;
    }

    method MoveAssign(other: UniqueResource)
      requires other.world == world
      modifies this, other, world
      ensures this == other ==> Abs() == old(Abs()) && world.ledger == old(world.ledger)
      ensures this != other ==>
                && Abs() == old(other.Abs())
                && other.Abs() == MOVED_OUT
                && world.ledger == Released(old(world.ledger), old(Abs()))
    {
      if this != other {
        Reset();
        resource := other.resource;
        other.resource := INVALID_VALUE;
        deleter := other.deleter;
        other.deleter := MovedFrom;
      }
    }

    method Destroy()
      modifies this`resource, world
      ensures Abs() == Emptied(old(Abs()))
      ensures world.ledger == Released(old(world.ledger), old(Abs()))
    {
      Reset();
    }
  }

  // ---------- A pool of handles ----------

  datatype Pool = Pool(handles: map<int, Handle>, ledger: Ledger)

  const EMPTY_POOL := Pool(map[], Ledger([], [], []))

  datatype Op =
    | Construct(id: int, resource: int, deleter: Deleter)
    | MoveConstruct(id: int, source: int)
    | MoveAssign(id: int, source: int)
    | Reset(id: int)
    | Destroy(id: int)

  /** Handles are used between their construction and their destruction. */
  predicate Alive(p: Pool, op: Op) {
    match op
    case Construct(id, _, _) => id !in p.handles
    case MoveConstruct(id, source) => id !in p.handles && source in p.handles
    case MoveAssign(id, source) => id in p.handles && source in p.handles
    case Reset(id) => id in p.handles
    case Destroy(id) => id in p.handles
  }

  function Do(p: Pool, op: Op): Pool
    requires Alive(p, op)
  {
    match op
    case Construct(id, r, d) => Pool(p.handles[id := Handle(r, d)], Wrapped(p.ledger, r))
    case MoveConstruct(id, source) =>
      Pool(p.handles[id := p.handles[source]][source := MOVED_OUT], p.ledger)
    case MoveAssign(id, source) =>
      if id == source then p
      else Pool(p.handles[id := p.handles[source]][source := MOVED_OUT], Released(p.ledger, p.handles[id]))
    case Reset(id) => Pool(p.handles[id := Emptied(p.handles[id])], Released(p.ledger, p.handles[id]))
    case Destroy(id) => Pool(p.handles - {id}, Released(p.ledger, p.handles[id]))
  }

  /** The resources that handles of the pool hold. */
  function Held(p: Pool): set<int> {
    set id | id in p.handles && Valid(p.handles[id]) :: p.handles[id].resource
  }

  predicate Usable(p: Pool, ops: seq<Op>)
    decreases |ops|
  {
    ops == [] || (Alive(p, ops[0]) && Usable(Do(p, ops[0]), ops[1..]))
  }

  function DoAll(p: Pool, ops: seq<Op>): Pool
    requires Usable(p, ops)
    decreases |ops|
  {
    if ops == [] then p else DoAll(Do(p, ops[0]), ops[1..])
  }

  /** A resource is not put under a handle while another one holds it. */
  predicate Apart(p: Pool, op: Op) {
    op.Construct? && op.resource != INVALID_VALUE ==> op.resource !in Held(p)
  }

  predicate AllApart(p: Pool, ops: seq<Op>)
    requires Usable(p, ops)
    decreases |ops|
  {
    ops == [] || (Apart(p, ops[0]) && AllApart(Do(p, ops[0]), ops[1..]))
  }

  /** No two handles hold the same resource. */
  predicate Exclusive(p: Pool) {
    forall a, b :: a in p.handles && b in p.handles && a != b && Valid(p.handles[a]) ==>
      p.handles[a].resource != p.handles[b].resource
  }

  /** Whatever was wrapped is held, or has been released or faulted on, once each time it was wrapped. */
  predicate Accounted(p: Pool) {
    multiset(p.ledger.wrapped) == multiset(p.ledger.released) + multiset(p.ledger.faulted) + multiset(Held(p))
  }

  predicate PoolInv(p: Pool) {
    Exclusive(p) && Accounted(p)
  }

  /** `q` is `p` after the handle `id` has let go of its resource; the handle itself may be gone. */
  predicate Dropped(p: Pool, id: int, q: Pool) {
    && id in p.handles
    && (id in q.handles ==> !Valid(q.handles[id]))
    && (forall k :: k in q.handles ==> k in p.handles)
    && (forall k :: k in p.handles && k != id ==> k in q.handles && q.handles[k] == p.handles[k])
  }

  lemma HeldAfterDrop(p: Pool, id: int, q: Pool)
    requires Exclusive(p) && Dropped(p, id, q)
    ensures Exclusive(q)
    ensures Held(q) == Held(p) - (if Valid(p.handles[id]) then {p.handles[id].resource} else {})
    ensures Valid(p.handles[id]) ==> p.handles[id].resource in Held(p)
  {
  }

  lemma DropAccounts(p: Pool, id: int, q: Pool)
    requires Accounted(p) && id in p.handles
    requires Valid(p.handles[id]) ==> p.handles[id].resource in Held(p)
    requires Held(q) == Held(p) - (if Valid(p.handles[id]) then {p.handles[id].resource} else {})
    requires q.ledger == Released(p.ledger, p.handles[id])
    ensures Accounted(q)
  {
    hide Held;
  }

  lemma DropKeeps(p: Pool, id: int, q: Pool)
    requires PoolInv(p) && Dropped(p, id, q)
    requires q.ledger == Released(p.ledger, p.handles[id])
    ensures PoolInv(q)
  {
    HeldAfterDrop(p, id, q);
    hide Exclusive, Held, Dropped, Accounted;
    DropAccounts(p, id, q);
  }

  /** Moving a handle's contents to an unused or emptied place leaves the pool's holdings alone. */
  lemma HeldAfterMove(p: Pool, id: int, source: int, q: Pool)
    requires source in p.handles && id != source
    requires id in p.handles ==> !Valid(p.handles[id])
    requires q.handles == p.handles[id := p.handles[source]][source := MOVED_OUT]
    ensures Held(q) == Held(p)
  {
    forall r | r in Held(p) ensures r in Held(q) {
      var k :| k in p.handles && Valid(p.handles[k]) && p.handles[k].resource == r;
      if k == source {
        assert q.handles[id].resource == r;
      } else {
        assert q.handles[k].resource == r;
      }
    }
  }

  lemma MoveKeeps(p: Pool, id: int, source: int, q: Pool)
    requires PoolInv(p) && source in p.handles && id != source
    requires id in p.handles ==> !Valid(p.handles[id])
    requires q.handles == p.handles[id := p.handles[source]][source := MOVED_OUT] && q.ledger == p.ledger
    ensures PoolInv(q)
  {
    HeldAfterMove(p, id, source, q);
    assert Exclusive(q);
  }

  lemma HeldAfterConstruct(p: Pool, id: int, h: Handle, q: Pool)
    requires id !in p.handles && q.handles == p.handles[id := h]
    ensures Held(q) == Held(p) + (if Valid(h) then {h.resource} else {})
  {
    forall x | x in Held(p) ensures x in Held(q) {
      var k :| k in p.handles && Valid(p.handles[k]) && p.handles[k].resource == x;
      assert q.handles[k].resource == x;
    }
    if Valid(h) {
      assert q.handles[id].resource == h.resource;
    }
  }

  lemma ConstructAccounts(p: Pool, r: int, q: Pool)
    requires Accounted(p) && (r != INVALID_VALUE ==> r !in Held(p))
    requires Held(q) == Held(p) + (if r == INVALID_VALUE then {} else {r})
    requires q.ledger == Wrapped(p.ledger, r)
    ensures Accounted(q)
  {
  }

  lemma ConstructKeeps(p: Pool, id: int, r: int, d: Deleter)
    requires PoolInv(p) && Alive(p, Construct(id, r, d)) && Apart(p, Construct(id, r, d))
    ensures PoolInv(Do(p, Construct(id, r, d)))
  {
    var q := Do(p, Construct(id, r, d));
    HeldAfterConstruct(p, id, Handle(r, d), q);
    ConstructAccounts(p, r, q);
    forall k | k in p.handles && Valid(p.handles[k]) ensures p.handles[k].resource in Held(p) {
    }
    assert Exclusive(q);
  }

  lemma MoveAssignKeeps(p: Pool, id: int, source: int)
    requires PoolInv(p) && Alive(p, MoveAssign(id, source)) && id != source
    ensures PoolInv(Do(p, MoveAssign(id, source)))
  {
    var mid := Pool(p.handles[id := Emptied(p.handles[id])], Released(p.ledger, p.handles[id]));
    DropKeeps(p, id, mid);
    assert mid.handles[id := mid.handles[source]] == p.handles[id := p.handles[source]];
    MoveKeeps(mid, id, source, Do(p, MoveAssign(id, source)));
  }

  lemma OpKeeps(p: Pool, op: Op)
    requires PoolInv(p) && Alive(p, op) && Apart(p, op)
    ensures PoolInv(Do(p, op))
  {
    hide PoolInv;
    match op
    case Construct(id, r, d) => ConstructKeeps(p, id, r, d);
    case MoveConstruct(id, source) => MoveKeeps(p, id, source, Do(p, op));
    case MoveAssign(id, source) =>
      if id != source {
        MoveAssignKeeps(p, id, source);
      }
    case Reset(id) => DropKeeps(p, id, Do(p, op));
    case Destroy(id) => DropKeeps(p, id, Do(p, op));
  }

  /**
   * Over any sequence of operations no two handles hold the same resource, and what was wrapped is,
   * time for time, held, released, or faulted on.
   */
  lemma {:induction false} OwnershipOverRuns(p: Pool, ops: seq<Op>)
    requires PoolInv(p) && Usable(p, ops) && AllApart(p, ops)
    ensures PoolInv(DoAll(p, ops))
    decreases |ops|
  {
    if ops != [] {
      OpKeeps(p, ops[0]);
      OwnershipOverRuns(Do(p, ops[0]), ops[1..]);
    }
  }

  // ---------- Deleters ----------

  /** A valid resource under a deleter that cannot be called. */
  predicate Loose(h: Handle) {
    Valid(h) && !h.deleter.Present?
  }

  /** A fault has happened, or is waiting to happen. */
  predicate Tainted(p: Pool) {
    p.ledger.faulted != [] || exists id :: id in p.handles && Loose(p.handles[id])
  }

  /** A valid resource is wrapped without a deleter that can be called, as the constructor's default has it. */
  predicate Loosens(op: Op) {
    op.Construct? && Loose(Handle(op.resource, op.deleter))
  }

  /** Moving, resetting and destroying neither make nor mend a fault. */
  lemma TaintedByConstruct(p: Pool, op: Op)
    requires Alive(p, op)
    ensures Tainted(Do(p, op)) <==> Tainted(p) || Loosens(op)
  {
    var q := Do(p, op);
    if Tainted(p) {
      TaintStays(p, op);
    } else if Loosens(op) {
      assert Loose(q.handles[op.id]);
    } else if k :| k in q.handles && Loose(q.handles[k]) {
      assert k in p.handles ==> !Loose(p.handles[k]);
      assert (op.MoveConstruct? || op.MoveAssign?) ==> !Loose(p.handles[op.source]);
    }
  }

  lemma TaintStays(p: Pool, op: Op)
    requires Alive(p, op) && Tainted(p)
    ensures Tainted(Do(p, op))
  {
    var q := Do(p, op);
    if k :| k in p.handles && Loose(p.handles[k]) {
      if op.MoveConstruct? || op.MoveAssign? {
        assert k == op.source ==> Loose(q.handles[op.id]);
      }
      assert k in q.handles && q.handles[k] == p.handles[k] ==> Loose(q.handles[k]);
    }
  }

  lemma {:induction false} TaintedOverRuns(p: Pool, ops: seq<Op>)
    requires Usable(p, ops)
    ensures Tainted(DoAll(p, ops)) <==> Tainted(p) || exists k :: 0 <= k < |ops| && Loosens(ops[k])
    decreases |ops|
  {
    hide Tainted, Loosens, Do, Alive;
    if ops != [] {
      var more := ops[1..];
      TaintedByConstruct(p, ops[0]);
      TaintedOverRuns(Do(p, ops[0]), more);
      if k :| 0 <= k < |ops| && Loosens(ops[k]) {
        assert k > 0 ==> more[k - 1] == ops[k];
      }
      if k :| 0 <= k < |more| && Loosens(more[k]) {
        assert ops[k + 1] == more[k];
      }
    }
  }

  /**
   * A program that lets all its handles go calls no unusable deleter if and only if it never wrapped
   * a valid resource without a deleter that can be called, however it moved its handles about.
   */
  lemma FaultlessExactlyWhen(ops: seq<Op>)
    requires Usable(EMPTY_POOL, ops) && DoAll(EMPTY_POOL, ops).handles == map[]
    ensures DoAll(EMPTY_POOL, ops).ledger.faulted == [] <==> forall k :: 0 <= k < |ops| ==> !Loosens(ops[k])
  {
    TaintedOverRuns(EMPTY_POOL, ops);
  }

  /**
   * From an empty pool, with no resource wrapped while it is held: a resource has been released or
   * faulted on exactly as often as it was wrapped, less once if a handle holds it now.  So it is
   * never released twice for one wrapping and never while held.  With no handle left and no deleter
   * missing, every wrapping has been released.
   */
  lemma ReleasedExactlyOnce(ops: seq<Op>, r: int)
    requires Usable(EMPTY_POOL, ops) && AllApart(EMPTY_POOL, ops)
    ensures var p := DoAll(EMPTY_POOL, ops); var l := p.ledger;
            && multiset(l.released)[r] + multiset(l.faulted)[r] + (if r in Held(p) then 1 else 0) ==
               multiset(l.wrapped)[r]
            && ((forall k :: 0 <= k < |ops| ==> !Loosens(ops[k])) ==>
                  l.faulted == [] && (p.handles == map[] ==> multiset(l.released) == multiset(l.wrapped)))
  {
    OwnershipOverRuns(EMPTY_POOL, ops);
    TaintedOverRuns(EMPTY_POOL, ops);
    var p := DoAll(EMPTY_POOL, ops);
    assert multiset(p.ledger.wrapped)[r] ==
           multiset(p.ledger.released)[r] + multiset(p.ledger.faulted)[r] + multiset(Held(p))[r];
  }

  // ---------- Sequences of operations ----------

  /** Nothing is wrapped while it is held, nor without a deleter that can be called. */
  predicate Sound(p: Pool, ops: seq<Op>) {
    && Usable(p, ops) && AllApart(p, ops)
    && forall k :: 0 <= k < |ops| ==> !Loosens(ops[k])
  }

  lemma SoundNext(p: Pool, op: Op, more: seq<Op>)
    requires Alive(p, op) && Apart(p, op) && !Loosens(op) && Sound(Do(p, op), more)
    ensures Sound(p, [op] + more) && DoAll(p, [op] + more) == DoAll(Do(p, op), more)
  {
    hide Alive, Apart, Loosens, Do;
    assert ([op] + more)[1..] == more;
  }

  lemma {:induction false} SoundAppend(p: Pool, xs: seq<Op>, ys: seq<Op>)
    requires Sound(p, xs) && Sound(DoAll(p, xs), ys)
    ensures Sound(p, xs + ys) && DoAll(p, xs + ys) == DoAll(DoAll(p, xs), ys)
    decreases |xs|
  {
    hide Alive, Apart, Loosens, Do;
    if xs == [] {
      assert xs + ys == ys;
    } else {
      assert forall k :: 0 <= k < |xs| - 1 ==> xs[1..][k] == xs[k + 1];
      SoundAppend(Do(p, xs[0]), xs[1..], ys);
      SoundNext(p, xs[0], xs[1..] + ys);
      assert [xs[0]] + (xs[1..] + ys) == xs + ys;
    }
  }

  // ---------- A pool of handle objects ----------

  /** The scopes of a program that hold handles, each under a name. */
  class Scopes {
    const world: World
    var table: map<int, UniqueResource>

    ghost function Abs(): Pool
      reads this, world, table.Values
    {
      Pool(map id | id in table :: table[id].Abs(), world.ledger)
    }

    ghost predicate Valid()
      reads this, world, table.Values
    {
      && (forall id :: id in table ==> table[id].world == world)
      && (forall a, b :: a in table && b in table && table[a] == table[b] ==> a == b)
    }

    constructor (world: World)
      requires world.ledger == EMPTY_POOL.ledger
      ensures this.world == world && Valid() && Abs() == EMPTY_POOL
    {
      this.world := world;
      table := map[];
    }

    lemma HandlesAre(expected: map<int, Handle>)
      requires table.Keys == expected.Keys
      requires forall k :: k in expected ==> table[k].Abs() == expected[k]
      ensures Abs().handles == expected
    {
      forall k | k in expected ensures Abs().handles[k] == expected[k] {
      }
    }

    method ConstructAt(id: int, resource: int, deleter: Deleter)
      requires Valid() && id !in table
      modifies this, world
      ensures Valid() && Abs() == Do(old(Abs()), Construct(id, resource, deleter))
      ensures forall o :: o in table.Values ==> fresh(o) || o in old(table.Values)
    {
      ghost var before := Abs();
      var handle := new UniqueResource(world, resource, deleter);
      table := table[id := handle];
      HandlesAre(before.handles[id := Handle(resource, deleter)]);
    }

    method MoveConstructAt(id: int, source: int)
      requires Valid() && id !in table && source in table
      modifies this`table, table[source]
      ensures Valid() && Abs() == Do(old(Abs()), MoveConstruct(id, source))
      ensures forall o :: o in table.Values ==> fresh(o) || o in old(table.Values)
    {
      ghost var before := Abs();
      var handle := new UniqueResource.MoveFrom(table[source]);
      table := table[id := handle];
      HandlesAre(before.handles[id := before.handles[source]][source := MOVED_OUT]);
    }

    method MoveAssignAt(id: int, source: int)
      requires Valid() && id in table && source in table
      modifies world, table[id], table[source]
      ensures Valid() && Abs() == Do(old(Abs()), MoveAssign(id, source))
    {
      ghost var before := Abs();
      table[id].MoveAssign(table[source]);
      if id == source {
        HandlesAre(before.handles);
      } else {
        HandlesAre(before.handles[id := before.handles[source]][source := MOVED_OUT]);
      }
    }

    method ResetAt(id: int)
      requires Valid() && id in table
      modifies world, table[id]
      ensures Valid() && Abs() == Do(old(Abs()), Reset(id))
    {
      ghost var before := Abs();
      table[id].Reset();
      HandlesAre(before.handles[id := Emptied(before.handles[id])]);
    }

    method DestroyAt(id: int)
      requires Valid() && id in table
      modifies this`table, world, table[id]
      ensures Valid() && Abs() == Do(old(Abs()), Destroy(id))
      ensures table == old(table) - {id}
    {
      ghost var before := Abs();
      table[id].Destroy();
      table := table - {id};
      HandlesAre(before.handles - {id});
    }

    /** What the handle objects do is what the pool of values does. */
    method Perform(op: Op)
      requires Valid() && Alive(Abs(), op)
      modifies this, world, table.Values
      ensures Valid() && Abs() == Do(old(Abs()), op)
      ensures forall o :: o in table.Values ==> fresh(o) || o in old(table.Values)
    {
      assert Abs().handles.Keys == table.Keys;
      hide Valid, Do;
      match op
      case Construct(id, resource, deleter) => ConstructAt(id, resource, deleter);
      case MoveConstruct(id, source) => MoveConstructAt(id, source);
      case MoveAssign(id, source) => MoveAssignAt(id, source);
      case Reset(id) => ResetAt(id);
      case Destroy(id) => DestroyAt(id);
    }
  }
}
