/** The single-threaded shared pointer: one counted block, many handles. */
module SharedPointer {
  import opened MachineInts

  /** A block and its count. `destroyed` counts calls of the block's deleter. */
  class Control {
    var references: nat
    var destroyed: nat

    constructor ()
      ensures references == 1 && destroyed == 0
    {
      references, destroyed := 1, 0;
    }

    method Release()
      requires references > 0 && destroyed == 0
      modifies this
      ensures references == old(references) - 1
      ensures destroyed == if references == 0 then 1 else 0
    {
      references := references - 1;
      if references == 0 { Destroy(); }
    }

    method Destroy()
      requires destroyed == 0
      modifies this`destroyed
      ensures destroyed == 1
    {
      destroyed := destroyed + 1;
    }
  }

  /** Every handle and every block that was ever made: what the heap holds. */
  class Heap {
    ghost var handles: set<LocalSharedPtr>
    ghost var blocks: set<Control>

    constructor ()
      ensures Valid() && handles == {} && blocks == {}
    {
      handles, blocks := {}, {};
    }

    ghost function Holders(c: Control): (r: set<LocalSharedPtr>)
      reads this, handles
    {
      set h | h in handles && h.control == c
    }

    /** Each block counts its handles and is destroyed, once, when none is left. */
    ghost predicate Counted(c: Control)
      reads this, handles, c
    {
      c.references == |Holders(c)| && c.destroyed == (if c.references == 0 then 1 else 0)
    }

    ghost predicate Closed()
      reads this, handles
    {
      forall h :: h in handles && h.control != null ==> h.control in blocks
    }

    ghost predicate Valid()
      reads this, handles, blocks
    {
      Closed() && forall c :: c in blocks ==> Counted(c)
    }

    /** One more handle, counted once more by its block. */
    twostate lemma HandleJoined(new h: LocalSharedPtr)
      requires old(Valid()) && h !in old(handles) && handles == old(handles) + {h} && blocks == old(blocks)
      requires forall x :: x in old(handles) ==> x.control == old(x.control)
      requires h.control != null ==> h.control in blocks
      requires forall c :: c in blocks ==> c.destroyed == old(c.destroyed)
      requires forall c :: c in blocks ==> c.references == old(c.references) + if c == h.control then 1 else 0
      requires h.control != null ==> h.control.destroyed == 0
      ensures Valid()
    {
      forall c | c in blocks
        ensures Counted(c)
      {
        assert old(Counted(c));
        assert Holders(c) == if c == h.control then old(Holders(c)) + {h} else old(Holders(c));
      }
    }

    twostate lemma HandlesSwapped(new a: LocalSharedPtr, new b: LocalSharedPtr)
      requires old(Valid()) && handles == old(handles) && a in old(handles) && b in old(handles)
      requires blocks == old(blocks)
      requires a.control == old(b.control) && b.control == old(a.control)
      requires forall x :: x in handles && x != a && x != b ==> x.control == old(x.control)
      requires forall c :: c in blocks ==> c.references == old(c.references) && c.destroyed == old(c.destroyed)
      ensures Valid()
    {
      forall c | c in blocks
        ensures Counted(c)
      {
        assert old(Counted(c));
        SameNumberOfHolders(a, b, c);
      }
    }

    twostate lemma SameNumberOfHolders(new a: LocalSharedPtr, new b: LocalSharedPtr, c: Control)
      requires handles == old(handles) && a in old(handles) && b in old(handles)
      requires a.control == old(b.control) && b.control == old(a.control)
      requires forall x :: x in handles && x != a && x != b ==> x.control == old(x.control)
      ensures |Holders(c)| == |old(Holders(c))|
    {
      var was, now := old(Holders(c)), Holders(c);
      if a.control == b.control || (a.control != c && b.control != c) {
        assert now == was;
      } else if a.control == c {
        Replaced(was, b, a);
        assert now == was - {b} + {a};
      } else {
        Replaced(was, a, b);
        assert now == was - {a} + {b};
      }
    }

    /** A handle without a block may go. */
    twostate lemma NullHandleLeft(new h: LocalSharedPtr)
      requires old(Valid()) && h in old(handles) && old(h.control) == null
      requires handles == old(handles) - {h} && blocks == old(blocks)
      requires forall x :: x in handles ==> x.control == old(x.control)
      requires forall c :: c in blocks ==> c.references == old(c.references) && c.destroyed == old(c.destroyed)
      ensures Valid()
    {
      forall c | c in blocks
        ensures Counted(c)
      {
        assert old(Counted(c));
        assert Holders(c) == old(Holders(c));
      }
    }

    /** No handle points at a destroyed block. */
    lemma HandlesAreLive(h: LocalSharedPtr)
      requires Valid() && h in handles && h.control != null
      ensures h.control.references > 0 && h.control.destroyed == 0
      ensures h.control.references <= |handles|
    {
      assert h in Holders(h.control) && Holders(h.control) <= handles;
      SubsetSize(Holders(h.control), handles);
      assert |Holders(h.control)| != 0;
    }

    /** A block is destroyed exactly when the last handle has left it. */
    lemma DestroyedExactlyWhenUnheld(c: Control)
      requires Valid() && c in blocks
      ensures c.destroyed <= 1
      ensures c.destroyed == 1 <==> forall h :: h in handles ==> h.control != c
    {
      if h :| h in handles && h.control == c {
        HandlesAreLive(h);
      } else {
        assert Holders(c) == {};
      }
    }
  }

  lemma Replaced<T>(s: set<T>, leaves: T, enters: T)
    requires leaves in s && enters !in s
    ensures |s - {leaves} + {enters}| == |s|
  {
  }

  lemma {:induction false} SubsetSize<T>(a: set<T>, b: set<T>)
    requires a <= b
    ensures |a| <= |b|
    decreases |a|
  {
    if x :| x in a {
      SubsetSize(a - {x}, b - {x});
    }
  }

  class LocalSharedPtr {
    var control: Control?

    /** A null handle. */
    constructor (heap: Heap)
      requires heap.Valid()
      modifies heap`handles
      ensures heap.Valid() && control == null
      ensures heap.handles == old(heap.handles) + {this} && this !in old(heap.handles)
    {
      control := null;
      new;
      heap.handles := heap.handles + {this};
      assert forall c :: c in heap.blocks ==> heap.Holders(c) == old(heap.Holders(c));
    }

    /** A fresh block with its first handle. */
    constructor Make(heap: Heap)
      requires heap.Valid()
      modifies heap
      ensures heap.Valid() && control != null && fresh(control)
      ensures heap.handles == old(heap.handles) + {this} && this !in old(heap.handles)
      ensures heap.blocks == old(heap.blocks) + {control}
    {
      control := new Control();
      new;
      heap.handles := heap.handles + {this};
      heap.blocks := heap.blocks + {control};
      assert heap.Holders(control) == {this};
      assert forall c :: c in old(heap.blocks) ==> heap.Holders(c) == old(heap.Holders(c));
    }

    ghost function Block(): (r: set<Control>)
      reads this
    {
      if control == null then {} else {control}
    }

    constructor Copy(heap: Heap, other: LocalSharedPtr)
      requires heap.Valid() && other in heap.handles && |heap.handles| < U64_MAX
      modifies heap`handles, other.Block()
      ensures heap.Valid() && control == other.control
      ensures heap.handles == old(heap.handles) + {this} && this !in old(heap.handles)
    {
      control := other.control;
      new;
      ghost var c := control;
      if c != null { heap.HandlesAreLive(other); }
      Retain();
      heap.handles := heap.handles + {this};
      heap.HandleJoined(this);
    }

    constructor Move(heap: Heap, other: LocalSharedPtr)
      requires heap.Valid() && other in heap.handles
      modifies heap`handles, other`control
      ensures heap.Valid() && control == old(other.control) && other.control == null
      ensures heap.handles == old(heap.handles) + {this} && this !in old(heap.handles)
    {
      control := other.control;
      new;
      other.control := null;
      heap.handles := heap.handles + {this};
      ghost var c := control;
      if c != null {
        assert heap.Holders(c) == old(heap.Holders(c)) - {other} + {this};
      }
      assert forall d :: d in heap.blocks && d != c ==> heap.Holders(d) == old(heap.Holders(d));
    }

    method Retain()
      requires control != null ==> control.references < U64_MAX && control.destroyed == 0
      modifies Block()
      ensures control != null ==>
                control.references == old(control.references) + 1 && control.destroyed == old(control.destroyed)
    {
      if control == null { return; }
      control.references := control.references + 1;
    }

    /** Leaves the block, and destroys it when this was the last handle. The block is
        touched only while it is alive. */
    method Reset(heap: Heap)
      requires heap.Valid() && this in heap.handles
      modifies this`control, Block()
      ensures heap.Valid() && control == null
    {
      var c := control;
      if c != null { heap.HandlesAreLive(this); }
      control := null;
      if c != null {
        c.Release();
      }
      assert forall d :: d in heap.blocks && d != c ==> heap.Holders(d) == old(heap.Holders(d));
      if c != null { assert heap.Holders(c) == old(heap.Holders(c)) - {this}; }
    }

    method Swap(heap: Heap, other: LocalSharedPtr)
      requires heap.Valid() && this in heap.handles && other in heap.handles
      modifies this`control, other`control
      ensures heap.Valid() && control == old(other.control) && other.control == old(control)
    {
      var mine := control;
      control := other.control;
      other.control := mine;
      heap.HandlesSwapped(this, other);
    }

    /** The destructor. */
    method Destruct(heap: Heap)
      requires heap.Valid() && this in heap.handles
      modifies heap`handles, this`control, Block()
      ensures heap.Valid() && heap.handles == old(heap.handles) - {this}
    {
      Reset(heap);
      label Empty:
      heap.handles := heap.handles - {this};
      heap.NullHandleLeft@Empty(this);
    }

    /** Assignment makes a temporary, swaps with it and lets it go; assigning a
        handle to itself changes nothing. */
    method CopyAssign(heap: Heap, other: LocalSharedPtr)
      requires heap.Valid() && this in heap.handles && other in heap.handles && |heap.handles| < U64_MAX
      modifies heap`handles, this`control, Block(), other.Block()
      ensures heap.Valid() && heap.handles == old(heap.handles) && control == old(other.control)
    {
      var temporary := new LocalSharedPtr.Copy(heap, other);
      temporary.Swap(heap, this);
      temporary.Destruct(heap);
    }

    method MoveAssign(heap: Heap, other: LocalSharedPtr)
      requires heap.Valid() && this in heap.handles && other in heap.handles
      modifies heap`handles, this`control, other`control, Block()
      ensures heap.Valid() && heap.handles == old(heap.handles) && control == old(other.control)
      ensures other != this ==> other.control == null
    {
      var temporary := new LocalSharedPtr.Move(heap, other);
      temporary.Swap(heap, this);
      temporary.Destruct(heap);
    }

    method UseCount(heap: Heap) returns (count: nat)
      requires heap.Valid() && this in heap.handles
      ensures count == if control == null then 0 else |heap.Holders(control)|
    {
      count := if control != null then control.references else 0;
    }
  }

  // ----- what a program means

  /** One step of a program; handles are named by their position. A step on a
      position that does not exist does nothing. */
  datatype Operation =
    | MakeNull
    | MakeShared
    | CopyFrom(source: nat)
    | MoveFrom(source: nat)
    | AssignCopy(target: nat, source: nat)
    | AssignMove(target: nat, source: nat)
    | SwapBoth(target: nat, source: nat)
    | ResetOne(target: nat)
    | LeaveScope(target: nat)

  /** What a handle points at; blocks are numbered as they are made. */
  datatype Target = Null | Block(number: nat)

  function After(ts: seq<Target>, made: nat, op: Operation): seq<Target> {
    match op
    case MakeNull => ts + [Null]
    case MakeShared => ts + [Block(made)]
    case CopyFrom(source) => if source < |ts| then ts + [ts[source]] else ts
    case MoveFrom(source) => if source < |ts| then ts[source := Null] + [ts[source]] else ts
    case AssignCopy(target, source) => if target < |ts| && source < |ts| then ts[target := ts[source]] else ts
    case AssignMove(target, source) =>
      if target < |ts| && source < |ts| && target != source then ts[target := ts[source]][source := Null] else ts
    case SwapBoth(target, source) =>
      if target < |ts| && source < |ts| then ts[target := ts[source]][source := ts[target]] else ts
    case ResetOne(target) => if target < |ts| then ts[target := Null] else ts
    case LeaveScope(target) => if target < |ts| then ts[..target] + ts[target + 1..] else ts
  }

  function Made(ops: seq<Operation>): nat {
    if ops == [] then 0 else Made(ops[..|ops| - 1]) + if ops[|ops| - 1].MakeShared? then 1 else 0
  }

  /** Where the handles of a program point after it has run. */
  function Targets(ops: seq<Operation>): seq<Target> {
    if ops == [] then []
    else
      var before := ops[..|ops| - 1];
      After(Targets(before), Made(before), ops[|ops| - 1])
  }

  function Occurrences(ts: seq<Target>, t: Target): nat {
    if ts == [] then 0 else Occurrences(ts[..|ts| - 1], t) + if ts[|ts| - 1] == t then 1 else 0
  }

  /** Three steps that make no block. */
  function InTurn(ts: seq<Target>, made: nat, a: Operation, b: Operation, c: Operation): seq<Target> {
    After(After(After(ts, made, a), made, b), made, c)
  }

  /** Copying adds a handle on the same target, moving takes the target away, and swapping
      exchanges two; no other handle changes. */
  lemma HandlesMove(ts: seq<Target>, made: nat, target: nat, source: nat, i: nat)
    requires target < |ts| && source < |ts| && i < |ts|
    ensures After(ts, made, CopyFrom(source))[i] == ts[i] && After(ts, made, CopyFrom(source))[|ts|] == ts[source]
    ensures After(ts, made, MoveFrom(source))[i] == (if i == source then Null else ts[i])
    ensures After(ts, made, MoveFrom(source))[|ts|] == ts[source]
    ensures After(ts, made, SwapBoth(target, source))[i]
         == if i == target then ts[source] else if i == source then ts[target] else ts[i]
  {
  }

  /** Assigning and resetting are making a temporary, swapping with it and letting it go,
      also where source and target are the same handle. */
  lemma AssignmentsAreSwaps(ts: seq<Target>, made: nat, target: nat, source: nat)
    requires target < |ts| && source < |ts|
    ensures var swap, drop := SwapBoth(target, |ts|), LeaveScope(|ts|);
            After(ts, made, AssignCopy(target, source)) == InTurn(ts, made, CopyFrom(source), swap, drop) &&
            After(ts, made, AssignMove(target, source)) == InTurn(ts, made, MoveFrom(source), swap, drop) &&
            After(ts, made, ResetOne(target)) == InTurn(ts, made, MakeNull, swap, drop)
  {
  }

  lemma NothingPointsBack(ts: seq<Target>, made: nat, op: Operation, b: nat)
    requires Block(b) !in ts && b < made
    ensures Block(b) !in After(ts, made, op)
  {
  }

  /** A block that no handle points at is never pointed at again. */
  lemma {:induction false} DeadStaysDead(ops: seq<Operation>, more: seq<Operation>, b: nat)
    requires b < Made(ops) && Block(b) !in Targets(ops)
    ensures b < Made(ops + more) && Block(b) !in Targets(ops + more)
    decreases |more|
  {
    if more == [] {
      assert ops + more == ops;
    } else {
      var front := more[..|more| - 1];
      DeadStaysDead(ops, front, b);
      assert (ops + more)[..|ops + more| - 1] == ops + front;
      NothingPointsBack(Targets(ops + front), Made(ops + front), more[|more| - 1], b);
    }
  }

  // ----- the heap follows that meaning

  ghost predicate Points(control: Control?, t: Target, made: seq<Control>) {
    match t
    case Null => control == null
    case Block(b) => b < |made| && control == made[b]
  }

  ghost predicate Shows(live: seq<LocalSharedPtr>, ts: seq<Target>, made: seq<Control>)
    reads live
  {
    |live| == |ts| && forall i :: 0 <= i < |live| ==> Points(live[i].control, ts[i], made)
  }

  /** All the blocks, in the order in which they were made. */
  ghost predicate Catalogue(made: seq<Control>, blocks: set<Control>) {
    (forall i, j :: 0 <= i < j < |made| ==> made[i] != made[j]) && blocks == set c | c in made
  }

  ghost predicate Listed(live: seq<LocalSharedPtr>, handles: set<LocalSharedPtr>) {
    && (forall i :: 0 <= i < |live| ==> live[i] in handles)
    && (forall i, j :: 0 <= i < j < |live| ==> live[i] != live[j])
    && (forall h :: h in handles ==> h in live)
  }

  ghost predicate AllLive(live: seq<LocalSharedPtr>)
    reads live, set h | h in live && h.control != null :: h.control
  {
    forall i :: 0 <= i < |live| && live[i].control != null ==> live[i].control.destroyed == 0
  }

  lemma ListedWith(live: seq<LocalSharedPtr>, handles: set<LocalSharedPtr>, h: LocalSharedPtr)
    requires Listed(live, handles) && h !in handles
    ensures Listed(live + [h], handles + {h})
  {
  }

  lemma ListedWithout(live: seq<LocalSharedPtr>, handles: set<LocalSharedPtr>, at: nat)
    requires Listed(live, handles) && at < |live|
    ensures Listed(live[..at] + live[at + 1..], handles - {live[at]})
  {
    var less := live[..at] + live[at + 1..];
    forall h | h in handles - {live[at]}
      ensures h in less
    {
      var i :| 0 <= i < |live| && live[i] == h;
      assert less[if i < at then i else i - 1] == h;
    }
  }

  lemma ListedAreLive(heap: Heap, live: seq<LocalSharedPtr>)
    requires heap.Valid() && Listed(live, heap.handles)
    ensures AllLive(live)
  {
    forall i | 0 <= i < |live| && live[i].control != null
      ensures live[i].control.destroyed == 0
    {
      heap.HandlesAreLive(live[i]);
    }
  }

  /** Each operation does to the handles what the program's meaning says, makes a block
      exactly when it says so, and leaves no handle on a destroyed block. */
  method Step(heap: Heap, live: seq<LocalSharedPtr>, op: Operation, ghost ts: seq<Target>, ghost made: seq<Control>)
    returns (live': seq<LocalSharedPtr>, ghost made': seq<Control>)
    requires heap.Valid() && Listed(live, heap.handles) && |heap.handles| < U64_MAX
    requires Shows(live, ts, made) && Catalogue(made, heap.blocks)
    modifies heap, heap.handles, heap.blocks
    ensures heap.Valid() && Listed(live', heap.handles) && |heap.handles| <= old(|heap.handles|) + 1
    ensures fresh(heap.handles - old(heap.handles)) && fresh(heap.blocks - old(heap.blocks))
    ensures Shows(live', After(ts, |made|, op), made') && Catalogue(made', heap.blocks) && AllLive(live')
    ensures made <= made' && |made'| == |made| + if op.MakeShared? then 1 else 0
  {
    made' := made;
    if op.MakeShared? {
      live', made' := Allocate(heap, live, ts, made);
    } else if op.MakeNull? || op.CopyFrom? || op.MoveFrom? {
      live' := Enter(heap, live, op, ts, made);
    } else if op.LeaveScope? {
      live' := Leave(heap, live, op.target, ts, made);
    } else {
      live' := live;
      Change(heap, live, op, ts, made);
    }
    ListedAreLive(heap, live');
  }

  method Allocate(heap: Heap, live: seq<LocalSharedPtr>, ghost ts: seq<Target>, ghost made: seq<Control>)
    returns (live': seq<LocalSharedPtr>, ghost made': seq<Control>)
    requires heap.Valid() && Listed(live, heap.handles) && Shows(live, ts, made) && Catalogue(made, heap.blocks)
    modifies heap
    ensures heap.Valid() && Listed(live', heap.handles) && |heap.handles| <= old(|heap.handles|) + 1
    ensures fresh(heap.handles - old(heap.handles)) && fresh(heap.blocks - old(heap.blocks))
    ensures Shows(live', ts + [Block(|made|)], made') && Catalogue(made', heap.blocks)
    ensures made <= made' && |made'| == |made| + 1
  {
    var h := new LocalSharedPtr.Make(heap);
    made' := made + [h.control];
    ListedWith(live, old(heap.handles), h);
    live' := live + [h];
  }

  /** The other constructors. */
  method Enter(heap: Heap, live: seq<LocalSharedPtr>, op: Operation, ghost ts: seq<Target>, ghost made: seq<Control>)
    returns (live': seq<LocalSharedPtr>)
    requires heap.Valid() && Listed(live, heap.handles) && |heap.handles| < U64_MAX && Shows(live, ts, made)
    requires op.MakeNull? || op.CopyFrom? || op.MoveFrom?
    modifies heap`handles, heap.handles, heap.blocks
    ensures heap.Valid() && Listed(live', heap.handles) && |heap.handles| <= old(|heap.handles|) + 1
    ensures fresh(heap.handles - old(heap.handles)) && Shows(live', After(ts, |made|, op), made)
  {
    if op.MakeNull? {
      live' := EnterNull(heap, live, ts, made);
    } else if op.source >= |live| {
      live' := live;
    } else if op.CopyFrom? {
      live' := EnterCopy(heap, live, op.source, ts, made);
    } else {
      live' := EnterMove(heap, live, op.source, ts, made);
    }
  }

  method EnterNull(heap: Heap, live: seq<LocalSharedPtr>, ghost ts: seq<Target>, ghost made: seq<Control>)
    returns (live': seq<LocalSharedPtr>)
    requires heap.Valid() && Listed(live, heap.handles) && Shows(live, ts, made)
    modifies heap`handles
    ensures heap.Valid() && Listed(live', heap.handles) && |heap.handles| <= old(|heap.handles|) + 1
    ensures fresh(heap.handles - old(heap.handles)) && Shows(live', ts + [Null], made)
  {
    var h := new LocalSharedPtr(heap);
    ShowsWith(live, ts, made, h, Null);
    ListedWith(live, old(heap.handles), h);
    live' := live + [h];
  }

  method EnterCopy(heap: Heap, live: seq<LocalSharedPtr>, source: nat, ghost ts: seq<Target>, ghost made: seq<Control>)
    returns (live': seq<LocalSharedPtr>)
    requires heap.Valid() && Listed(live, heap.handles) && |heap.handles| < U64_MAX && Shows(live, ts, made)
    requires source < |live|
    modifies heap`handles, heap.blocks
    ensures heap.Valid() && Listed(live', heap.handles) && |heap.handles| <= old(|heap.handles|) + 1
    ensures fresh(heap.handles - old(heap.handles)) && Shows(live', ts + [ts[source]], made)
  {
    var h := new LocalSharedPtr.Copy(heap, live[source]);
    ShowsWith(live, ts, made, h, ts[source]);
    ListedWith(live, old(heap.handles), h);
    live' := live + [h];
  }

  method EnterMove(heap: Heap, live: seq<LocalSharedPtr>, source: nat, ghost ts: seq<Target>, ghost made: seq<Control>)
    returns (live': seq<LocalSharedPtr>)
    requires heap.Valid() && Listed(live, heap.handles) && Shows(live, ts, made) && source < |live|
    modifies heap`handles, heap.handles
    ensures heap.Valid() && Listed(live', heap.handles) && |heap.handles| <= old(|heap.handles|) + 1
    ensures fresh(heap.handles - old(heap.handles)) && Shows(live', ts[source := Null] + [ts[source]], made)
  {
    var h := new LocalSharedPtr.Move(heap, live[source]);
    ShowsWith(live, ts[source := Null], made, h, ts[source]);
    ListedWith(live, old(heap.handles), h);
    live' := live + [h];
  }

  method Leave(heap: Heap, live: seq<LocalSharedPtr>, at: nat, ghost ts: seq<Target>, ghost made: seq<Control>)
    returns (live': seq<LocalSharedPtr>)
    requires heap.Valid() && Listed(live, heap.handles) && Shows(live, ts, made)
    modifies heap`handles, heap.handles, heap.blocks
    ensures heap.Valid() && Listed(live', heap.handles)
    ensures heap.handles <= old(heap.handles) && |heap.handles| <= old(|heap.handles|)
    ensures Shows(live', After(ts, |made|, LeaveScope(at)), made)
  {
    if at >= |live| { return live; }
    ListedWithout(live, heap.handles, at);
    live[at].Destruct(heap);
    SubsetSize(heap.handles, old(heap.handles));
    ShowsWithout(live, ts, made, at);
    live' := live[..at] + live[at + 1..];
  }

  lemma ShowsWith(live: seq<LocalSharedPtr>, ts: seq<Target>, made: seq<Control>, h: LocalSharedPtr, t: Target)
    requires Shows(live, ts, made) && Points(h.control, t, made)
    ensures Shows(live + [h], ts + [t], made)
  {
  }

  lemma ShowsWithout(live: seq<LocalSharedPtr>, ts: seq<Target>, made: seq<Control>, at: nat)
    requires |live| == |ts| && at < |live|
    requires forall i :: 0 <= i < |live| && i != at ==> Points(live[i].control, ts[i], made)
    ensures Shows(live[..at] + live[at + 1..], ts[..at] + ts[at + 1..], made)
  {
    var less, ts' := live[..at] + live[at + 1..], ts[..at] + ts[at + 1..];
    forall i | 0 <= i < |less|
      ensures Points(less[i].control, ts'[i], made)
    {
      var k := if i < at then i else i + 1;
      assert less[i] == live[k] && ts'[i] == ts[k];
    }
  }

  /** Assignments, swaps and resets keep the handles there are. */
  method Change(heap: Heap, live: seq<LocalSharedPtr>, op: Operation, ghost ts: seq<Target>, ghost made: seq<Control>)
    requires heap.Valid() && Listed(live, heap.handles) && |heap.handles| < U64_MAX && Shows(live, ts, made)
    requires op.AssignCopy? || op.AssignMove? || op.SwapBoth? || op.ResetOne?
    modifies heap`handles, heap.handles, heap.blocks
    ensures heap.Valid() && heap.handles == old(heap.handles)
    ensures Shows(live, After(ts, |made|, op), made)
  {
    if op.AssignCopy? && op.target < |live| && op.source < |live| {
      live[op.target].CopyAssign(heap, live[op.source]);
    } else if op.AssignMove? && op.target < |live| && op.source < |live| {
      live[op.target].MoveAssign(heap, live[op.source]);
    } else if op.SwapBoth? && op.target < |live| && op.source < |live| {
      live[op.target].Swap(heap, live[op.source]);
    } else if op.ResetOne? && op.target < |live| {
      live[op.target].Reset(heap);
    }
  }

  ghost function HoldersAmong(live: seq<LocalSharedPtr>, c: Control): set<LocalSharedPtr>
    reads live
  {
    set h | h in live && h.control == c
  }

  lemma OneMoreHolder(front: seq<LocalSharedPtr>, last: LocalSharedPtr, c: Control)
    requires last !in front
    ensures |HoldersAmong(front + [last], c)| == |HoldersAmong(front, c)| + if last.control == c then 1 else 0
  {
    var fewer, all := HoldersAmong(front, c), HoldersAmong(front + [last], c);
    assert last !in fewer;
    assert all == if last.control == c then fewer + {last} else fewer;
  }

  /** As many handles hold a block as the program's meaning points at it. */
  lemma {:induction false} HoldersAreOccurrences(live: seq<LocalSharedPtr>, ts: seq<Target>, made: seq<Control>, b: nat)
    requires Shows(live, ts, made) && b < |made| && (forall i, j :: 0 <= i < j < |made| ==> made[i] != made[j])
    requires forall i, j :: 0 <= i < j < |live| ==> live[i] != live[j]
    ensures |HoldersAmong(live, made[b])| == Occurrences(ts, Block(b))
    decreases |live|
  {
    if live == [] {
      assert HoldersAmong(live, made[b]) == {};
    } else {
      var front, last := live[..|live| - 1], live[|live| - 1];
      HoldersAreOccurrences(front, ts[..|ts| - 1], made, b);
      assert live == front + [last];
      OneMoreHolder(front, last, made[b]);
      assert Points(last.control, ts[|ts| - 1], made);
    }
  }

  /** After any program, and so after every part of one, the handles point where its
      meaning says, each block's count is the number of handles on it, and a block is
      destroyed exactly when none is left. */
  method Run(ops: seq<Operation>) returns (heap: Heap, live: seq<LocalSharedPtr>, ghost made: seq<Control>)
    requires |ops| < U64_MAX
    ensures fresh(heap) && fresh(heap.handles) && fresh(heap.blocks) && heap.Valid() && Listed(live, heap.handles)
    ensures Catalogue(made, heap.blocks) && |made| == Made(ops) && Shows(live, Targets(ops), made) && AllLive(live)
    ensures forall b :: 0 <= b < |made| ==>
              made[b].references == Occurrences(Targets(ops), Block(b)) &&
              made[b].destroyed == if Occurrences(Targets(ops), Block(b)) == 0 then 1 else 0
  {
    heap := new Heap();
    live, made := [], [];
    for i := 0 to |ops|
      invariant heap.Valid() && Listed(live, heap.handles) && |heap.handles| <= i
      invariant fresh(heap) && fresh(heap.handles) && fresh(heap.blocks)
      invariant Catalogue(made, heap.blocks) && |made| == Made(ops[..i]) && Shows(live, Targets(ops[..i]), made)
    {
      OneOperationMore(ops, i);
      live, made := Step(heap, live, ops[i], Targets(ops[..i]), made);
    }
    assert ops[..|ops|] == ops;
    ListedAreLive(heap, live);
    CountsAreOccurrences(heap, live, Targets(ops), made);
  }

  lemma OneOperationMore(ops: seq<Operation>, i: nat)
    requires i < |ops|
    ensures Made(ops[..i + 1]) == Made(ops[..i]) + if ops[i].MakeShared? then 1 else 0
    ensures Targets(ops[..i + 1]) == After(Targets(ops[..i]), Made(ops[..i]), ops[i])
  {
    assert ops[..i + 1][..i] == ops[..i];
  }

  lemma CountsAreOccurrences(heap: Heap, live: seq<LocalSharedPtr>, ts: seq<Target>, made: seq<Control>)
    requires heap.Valid() && Listed(live, heap.handles) && Catalogue(made, heap.blocks) && Shows(live, ts, made)
    ensures forall b :: 0 <= b < |made| ==>
              made[b].references == Occurrences(ts, Block(b)) &&
              made[b].destroyed == if Occurrences(ts, Block(b)) == 0 then 1 else 0
  {
    forall b | 0 <= b < |made|
      ensures made[b].references == Occurrences(ts, Block(b))
      ensures made[b].destroyed == if Occurrences(ts, Block(b)) == 0 then 1 else 0
    {
      assert made[b] in heap.blocks && heap.Counted(made[b]);
      HoldersAreOccurrences(live, ts, made, b);
      assert heap.Holders(made[b]) == HoldersAmong(live, made[b]);
    }
  }

  /** A program run to its end: its handles go one after the other, and then every block
      it made, one for each allocation, has been destroyed exactly once. */
  method RunToEnd(ops: seq<Operation>) returns (heap: Heap)
    requires |ops| < U64_MAX
    ensures heap.Valid() && heap.handles == {} && |heap.blocks| == Made(ops)
    ensures forall c :: c in heap.blocks ==> c.references == 0 && c.destroyed == 1
  {
    var live: seq<LocalSharedPtr>;
    ghost var made: seq<Control>;
    heap, live, made := Run(ops);
    ghost var blocks := heap.blocks;
    CatalogueSize(made, blocks);
    while live != []
      invariant heap.Valid() && Listed(live, heap.handles) && heap.blocks == blocks
      invariant fresh(heap) && fresh(heap.handles) && fresh(heap.blocks)
      decreases |live|
    {
      ListedWithout(live, heap.handles, |live| - 1);
      assert live[..|live| - 1] + live[|live|..] == live[..|live| - 1];
      live[|live| - 1].Destruct(heap);
      live := live[..|live| - 1];
    }
    forall c | c in heap.blocks
      ensures c.references == 0 && c.destroyed == 1
    {
      assert heap.Holders(c) == {};
    }
  }

  lemma {:induction false} CatalogueSize(made: seq<Control>, blocks: set<Control>)
    requires Catalogue(made, blocks)
    ensures |blocks| == |made|
    decreases |made|
  {
    if made == [] {
      assert blocks == {};
    } else {
      var last := made[|made| - 1];
      CatalogueSize(made[..|made| - 1], blocks - {last});
    }
  }
}
