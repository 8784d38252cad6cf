/**
 The shared part of the connection pool: the queue of handles and the reference counts of
 their control blocks.

 A handle is a shared pointer. `Raw(c)` is the pointer made when connection `c` is opened;
 `Wrap(k, inner)` is the pointer handed to a borrower, whose deleter owns `inner` and gives it
 back. `refs` holds one occurrence of a handle for every live reference to its control block.
*/
module PoolHandles {
  import opened Options

  datatype Handle = Raw(conn: nat) | Wrap(serial: nat, inner: Handle)

  datatype Shared = Shared(queue: seq<Handle>, refs: multiset<Handle>, nextSerial: nat)

  /** The physical connection a handle leads to. */
  function Base(h: Handle): nat {
    match h
    case Raw(c) => c
    case Wrap(_, inner) => Base(inner)
  }

  /** The number of wrappers around the physical connection. */
  function Layers(h: Handle): nat {
    match h
    case Raw(_) => 0
    case Wrap(_, inner) => 1 + Layers(inner)
  }

  /** The references that one reference to `h` keeps alive: its own and, layer by layer, those the deleters own. */
  ghost function Chain(h: Handle): multiset<Handle> {
    match h
    case Raw(_) => multiset{h}
    case Wrap(_, inner) => multiset{h} + Chain(inner)
  }

  function RawQueue(n: nat): (q: seq<Handle>)
    ensures |q| == n
    ensures forall c :: 0 <= c < n ==> q[c] == Raw(c)
  {
    if n == 0 then [] else RawQueue(n - 1) + [Raw(n - 1)]
  }

  /** A borrower takes the front handle and gets a fresh wrapper that owns it. */
  function TakeFront(p: Shared): Shared
    requires p.queue != []
  {
    p.(queue := p.queue[1..],
       refs := p.refs + multiset{Wrap(p.nextSerial, p.queue[0])},
       nextSerial := p.nextSerial + 1)
  }

  function AddRef(p: Shared, h: Handle): Shared {
    p.(refs := p.refs + multiset{h})
  }

  function DropRef(p: Shared, h: Handle): Shared {
    p.(refs := p.refs - multiset{h})
  }

  function PushBack(p: Shared, h: Handle): Shared {
    AddRef(p, h).(queue := p.queue + [h])
  }

  lemma CopyThenDrop(refs: multiset<Handle>, h: Handle, w: Handle)
    ensures refs + multiset{h} - multiset{h} == refs
    ensures refs + multiset{h} + multiset{w} - multiset{h} == refs + multiset{w}
  {
  }

  lemma CopyPushDrop(queue: seq<Handle>, refs: multiset<Handle>, h: Handle)
    requires refs == multiset(queue)
    ensures refs + multiset{h} + multiset{h} - multiset{h} == multiset(queue + [h])
  {
    CopyThenDrop(refs + multiset{h}, h, h);
  }

  /** Dropping one of two references leaves one. */
  lemma StillReferenced(refs: multiset<Handle>, h: Handle)
    requires h in refs
    ensures (refs + multiset{h})[h] > 1
  {
  }

  /**
   The pool object, one method for each critical section or count update of the source.
   Reference counts are updated one copy and one destruction at a time.
  */
  class ConnectionPool {
    const poolSize: int
    var available: seq<Handle>
    var refs: multiset<Handle>
    var nextSerial: nat

    ghost function View(): Shared
      reads this
    {
      Shared(available, refs, nextSerial)
    }

    constructor (poolSize: int)
      ensures this.poolSize == poolSize
      ensures View() == Shared([], multiset{}, 0)
    {
      this.poolSize := poolSize;
      available, refs, nextSerial := [], multiset{}, 0;
    }

    /** One round of initialize: the connection is opened and pushed, and the local pointer to it dies. */
    method AddConnection(i: nat)
      requires available == RawQueue(i) && refs == multiset(available)
      modifies this
      ensures available == RawQueue(i + 1) && refs == multiset(available) && nextSerial == old(nextSerial)
    {
      var conn := Raw(i);
      CopyPushDrop(available, refs, conn);
      CopyHandle(conn);                      // the local pointer
      available := available + [conn];
      CopyHandle(conn);                      // the queue's copy
      var gone := DropHandle(conn);          // end of the local's scope
    }

    /** Every connection is opened, pushed, and left with the queue's reference alone. */
    method Initialize()
      requires View() == Shared([], multiset{}, 0)
      modifies this
      ensures available == RawQueue(if poolSize < 0 then 0 else poolSize)
      ensures refs == multiset(available)
      ensures nextSerial == 0
    {
      var i := 0;
      while i < poolSize
        invariant 0 <= i && (i <= poolSize || i == 0)
        invariant available == RawQueue(i) && refs == multiset(available)
        invariant nextSerial == 0
      {
        AddConnection(i);
        i := i + 1;
      }
    }

    method CopyHandle(h: Handle)
      modifies this
      ensures View() == AddRef(old(View()), h)
    {
      refs := refs + multiset{h};
    }

    /** Destroys one reference; the deleter runs exactly when it was the last one. */
    method DropHandle(h: Handle) returns (deleterRuns: bool)
      requires h in refs
      modifies this
      ensures View() == DropRef(old(View()), h)
      ensures deleterRuns <==> old(refs)[h] == 1
    {
      refs := refs - multiset{h};
      deleterRuns := h !in refs;
    }

    /**
     The critical section of get_connection: `None` means the caller goes to wait.
     The count of the taken handle never reaches zero on the way, so no deleter runs under the lock.
    */
    method TakeOrWait() returns (borrowed: Option<Handle>)
      requires available != [] ==> available[0] in refs
      modifies this
      ensures old(available) == [] ==> borrowed == None && View() == old(View())
      ensures old(available) != [] ==>
        && borrowed == Some(Wrap(old(nextSerial), old(available)[0]))
        && available == old(available)[1..]
        && refs == old(refs) + multiset{Wrap(old(nextSerial), old(available)[0])}
        && View() == TakeFront(old(View()))
    {
      if available == [] {
        return None;
      }
      var conn := available[0];
      StillReferenced(refs, conn);
      CopyHandle(conn);                      // local copy of the front element
      available := available[1..];
      var gone := DropHandle(conn);          // the queue's reference
      CopyHandle(conn);                      // captured by the deleter
      CopyThenDrop(old(refs), conn, conn);
      var wrapper := Wrap(nextSerial, conn);
      nextSerial := nextSerial + 1;
      CopyHandle(wrapper);
      CopyThenDrop(old(refs), conn, wrapper);
      var goneToo := DropHandle(conn);       // end of the local's scope
      assert !gone && !goneToo;
      borrowed := Some(wrapper);
    }

    /** The critical section of return_connection. */
    method Push(h: Handle)
      modifies this
      ensures View() == PushBack(old(View()), h)
      ensures available == old(available) + [h] && refs == old(refs) + multiset{h}
    {
      available := available + [h];
      refs := refs + multiset{h};
    }
  }
}
