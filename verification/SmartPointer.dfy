// The intrusive reference count of src/Utilities/smartpointer.h: `smartable` objects with two
// SMARTP members (the nodes of src/MainStructure/FLNodes.h), SMARTP variables, and the cascade of
// deletions that the destruction of a SMARTP may start.
module SmartPointer {
  import opened Options

  type Object = nat  // an address, never used again

  type Pointer = Option<Object>

  // Every SMARTP: a variable, or the member `left` or `right` of an object.
  datatype Slot = Variable(name: nat) | Left(owner: Object) | Right(owner: Object)

  type Slots = map<Slot, Pointer>

  ghost function Referrers(slots: Slots, o: Object): set<Slot> {
    set s | s in slots && slots[s] == Some(o)
  }

  ghost function Refs(slots: Slots, o: Object): nat { |Referrers(slots, o)| }

  // One more reference, held by no SMARTP yet or no longer, if the pointer is not null.
  ghost function Owed(p: Pointer): multiset<Object> {
    if p.Some? then multiset{p.value} else multiset{}
  }

  // Every pointer of `slots` leads to a live object, and live objects have their two members.
  ghost predicate Closed(live: set<Object>, slots: Slots) {
    && (forall s :: s in slots && slots[s].Some? ==> slots[s].value in live)
    && (forall o :: o in live <==> Left(o) in slots)
    && (forall o :: o in live <==> Right(o) in slots)
  }

  // The count of an object is the number of SMARTP on it, plus the references owed to it.
  ghost predicate Counted(refCount: map<Object, nat>, slots: Slots, owed: multiset<Object>) {
    && (forall o :: o in owed ==> o in refCount)
    && (forall o :: o in refCount ==> refCount[o] == Refs(slots, o) + owed[o])
  }

  // No way through members leads back to its start: a rank falls along each of them.
  ghost predicate Acyclic(slots: Slots) { exists rank :: Ranks(slots, rank) }

  ghost predicate Ranks(slots: Slots, rank: map<Object, nat>) {
    forall s :: s in slots && !s.Variable? && slots[s].Some? ==>
      s.owner in rank && slots[s].value in rank && rank[slots[s].value] < rank[s.owner]
  }

  ghost predicate Distinct(s: seq<Object>) {
    forall i, j :: 0 <= i < j < |s| ==> s[i] != s[j]
  }

  lemma RefsAfterRemoval(slots: Slots, s: Slot, o: Object)
    requires s in slots
    ensures Refs(slots, o) == Refs(slots[s := None], o) + Owed(slots[s])[o]
  {
    var before, after := Referrers(slots, o), Referrers(slots[s := None], o);
    if slots[s] == Some(o) {
      assert before == after + {s};
    } else {
      assert before == after;
    }
  }

  // A null SMARTP counts for nothing.
  lemma NullCountsNothing(slots: Slots, s: Slot, o: Object)
    ensures Refs(slots - {s}, o) == Refs(slots[s := None], o)
  {
    assert Referrers(slots - {s}, o) == Referrers(slots[s := None], o);
  }

  lemma RefsAfterDropping(slots: Slots, s: Slot, o: Object)
    requires s in slots
    ensures Refs(slots, o) == Refs(slots - {s}, o) + Owed(slots[s])[o]
  {
    hide Refs;
    RefsAfterRemoval(slots, s, o);
    NullCountsNothing(slots, s, o);
  }

  lemma RefsAfterDeletion(slots: Slots, o: Object, x: Object)
    requires Left(o) in slots && Right(o) in slots
    ensures Refs(slots, x) == Refs(slots - {Left(o), Right(o)}, x)
      + Owed(slots[Left(o)])[x] + Owed(slots[Right(o)])[x]
  {
    hide Refs, Owed;
    RefsAfterDropping(slots, Left(o), x);
    RefsAfterDropping(slots - {Left(o)}, Right(o), x);
    assert slots - {Left(o)} - {Right(o)} == slots - {Left(o), Right(o)};
  }

  // A SMARTP that did not exist, or that was null.
  lemma RefsAfterPlacing(slots: Slots, s: Slot, p: Pointer, o: Object)
    requires s in slots ==> slots[s] == None
    ensures Refs(slots[s := p], o) == Refs(slots, o) + Owed(p)[o]
  {
    hide Refs, Owed;
    RefsAfterRemoval(slots[s := p], s, o);
    assert slots[s := p][s := None] == slots[s := None];
    if s in slots {
      assert slots[s := None] == slots;
    } else {
      NullCountsNothing(slots, s, o);
      assert slots - {s} == slots;
    }
  }

  // A snapshot of the heap: the live objects with their counts, the live SMARTP, the objects
  // deleted so far in the order of their deletion, the objects that no SMARTP has held yet, and
  // the next address.
  datatype State = State(refCount: map<Object, nat>, slots: Slots, deleted: seq<Object>,
                         raw: set<Object>, next: Object)

  ghost function Settled(slots: Slots, busy: Option<Slot>): Slots {
    match busy
    case None => slots
    case Some(v) => slots[v := None]
  }

  // What holds between any two steps; `busy` is the SMARTP in the course of an assignment or of its
  // destruction, if any: its pointer does not count.
  ghost predicate Consistent(h: State, owed: multiset<Object>, busy: Option<Slot>) {
    && (busy.Some? ==> busy.value in h.slots)
    && Closed(h.refCount.Keys, Settled(h.slots, busy))
    && Counted(h.refCount, Settled(h.slots, busy), owed)
    && Acyclic(h.slots)
    && Recorded(h.refCount, h.deleted, h.raw, h.next)
  }

  // Every address below `next` is live or was deleted once, and an object with count zero was
  // never held by a SMARTP.
  ghost predicate Recorded(refCount: map<Object, nat>, deleted: seq<Object>, raw: set<Object>, next: Object) {
    && raw <= refCount.Keys
    && (forall o :: o in refCount ==> (refCount[o] == 0 <==> o in raw))
    && Distinct(deleted)
    && (forall o :: o in deleted ==> o !in refCount && o < next)
    && (forall o :: o in refCount ==> o < next)
    && (forall o :: 0 <= o < next ==> o in refCount || o in deleted)
  }

  // From g to h, some objects were deleted with their members, and no other SMARTP changed.
  ghost predicate OnlyDeletes(g: State, h: State) {
    && g.deleted <= h.deleted && h.refCount.Keys <= g.refCount.Keys
    && h.raw == g.raw && h.next == g.next
    && (forall s :: s in h.slots ==> s in g.slots && h.slots[s] == g.slots[s])
    && (forall s :: s in g.slots && s !in h.slots ==> !s.Variable? && s.owner in h.deleted)
  }

  lemma OnlyDeletesTransitive(f: State, g: State, h: State)
    requires OnlyDeletes(f, g) && OnlyDeletes(g, h)
    ensures OnlyDeletes(f, h)
    ensures forall o :: o in g.deleted ==> o in h.deleted
    ensures h.refCount.Keys <= g.refCount.Keys
  {
  }

  lemma NothingDeleted(g: State, h: State)
    requires h == g.(refCount := h.refCount) && h.refCount.Keys <= g.refCount.Keys
    ensures OnlyDeletes(g, h)
  {
  }

  function Referenced(h: State, o: Object): State
    requires o in h.refCount
  {
    h.(refCount := h.refCount[o := h.refCount[o] + 1], raw := h.raw - {o})
  }

  lemma ReferencedConsistent(h: State, o: Object, owed: multiset<Object>, busy: Option<Slot>)
    requires Consistent(h, owed, busy) && o in h.refCount
    ensures Consistent(Referenced(h, o), owed + multiset{o}, busy)
  {
    hide Refs, Acyclic, Closed;
    assert Referenced(h, o).refCount.Keys == h.refCount.Keys;
  }

  function Unreferenced(h: State, o: Object): State
    requires o in h.refCount && h.refCount[o] > 0
  {
    h.(refCount := h.refCount[o := h.refCount[o] - 1])
  }

  // A count that stays positive.
  lemma UnreferencedConsistent(h: State, o: Object, owed: multiset<Object>, busy: Option<Slot>)
    requires Consistent(h, owed + multiset{o}, busy)
    ensures o in h.refCount && h.refCount[o] > 0 && o !in h.deleted
    ensures h.refCount[o] > 1 ==> Consistent(Unreferenced(h, o), owed, busy)
  {
    UnreferencedCounted(h.refCount, Settled(h.slots, busy), o, owed);
    UnreferencedRecorded(h, o);
    hide Counted, Acyclic, Closed, Recorded, Settled;
    assert h.refCount[o] > 1 ==> Unreferenced(h, o).refCount.Keys == h.refCount.Keys;
  }

  lemma UnreferencedCounted(refCount: map<Object, nat>, view: Slots, o: Object, owed: multiset<Object>)
    requires Counted(refCount, view, owed + multiset{o})
    ensures o in refCount && refCount[o] > 0
    ensures Counted(refCount[o := refCount[o] - 1], view, owed)
  {
    hide Refs;
    assert o in owed + multiset{o};
    assert forall x :: x in owed ==> x in owed + multiset{o};
    assert forall x :: (owed + multiset{o})[x] == owed[x] + if x == o then 1 else 0;
  }

  lemma UnreferencedRecorded(h: State, o: Object)
    requires Recorded(h.refCount, h.deleted, h.raw, h.next) && o in h.refCount
    ensures o !in h.deleted
    ensures h.refCount[o] > 1 ==> Recorded(h.refCount[o := h.refCount[o] - 1], h.deleted, h.raw, h.next)
  {
  }

  // `delete this`, before the members are destroyed
  function Deleted(h: State, o: Object): State {
    h.(refCount := h.refCount - {o}, slots := h.slots - {Left(o), Right(o)},
       deleted := h.deleted + [o])
  }

  lemma DeletedOnlyDeletes(h: State, o: Object)
    ensures OnlyDeletes(h, Deleted(h, o)) && o in Deleted(h, o).deleted
  {
  }

  lemma DeletedCounted(refCount: map<Object, nat>, view: Slots, o: Object, owed: multiset<Object>)
    requires Counted(refCount, view, owed + multiset{o}) && refCount[o] == 1
    requires Left(o) in view && Right(o) in view && Closed(refCount.Keys, view)
    ensures Counted(refCount - {o}, view - {Left(o), Right(o)},
        owed + Owed(view[Left(o)]) + Owed(view[Right(o)]))
    ensures Referrers(view, o) == {}
  {
    hide Refs;
    assert o in owed + multiset{o};
    assert Refs(view, o) == 0 && owed[o] == 0;
    NoReferrer(view, o);
    DeletedOwed(refCount, view, o, owed);
    hide Closed;
    var owed' := owed + Owed(view[Left(o)]) + Owed(view[Right(o)]);
    forall x | x in refCount && x != o
      ensures refCount[x] == Refs(view - {Left(o), Right(o)}, x) + owed'[x]
    {
      RefsAfterDeletion(view, o, x);
      assert (owed + multiset{o})[x] == owed[x];
    }
  }

  lemma DeletedOwed(refCount: map<Object, nat>, view: Slots, o: Object, owed: multiset<Object>)
    requires Counted(refCount, view, owed + multiset{o}) && owed[o] == 0
    requires Left(o) in view && Right(o) in view && Closed(refCount.Keys, view)
    requires view[Left(o)] != Some(o) && view[Right(o)] != Some(o)
    ensures forall x :: x in owed + Owed(view[Left(o)]) + Owed(view[Right(o)]) ==> x in refCount - {o}
  {
    hide Refs;
    forall x | x in owed + Owed(view[Left(o)]) + Owed(view[Right(o)])
      ensures x in refCount && x != o
    {
      assert x in owed || Some(x) == view[Left(o)] || Some(x) == view[Right(o)];
      assert x in owed ==> x in owed + multiset{o};
    }
  }

  lemma NoReferrer(view: Slots, o: Object)
    requires Refs(view, o) == 0
    ensures Referrers(view, o) == {}
    ensures forall s :: s in view ==> view[s] != Some(o)
  {
    assert forall s :: s in view ==> s !in Referrers(view, o);
  }

  lemma ClosedMembers(live: set<Object>, view: Slots, o: Object)
    requires Closed(live, view) && o in live
    ensures Left(o) in view && Right(o) in view
  {
  }

  lemma DeletedClosed(live: set<Object>, view: Slots, o: Object)
    requires Closed(live, view) && Referrers(view, o) == {}
    ensures Closed(live - {o}, view - {Left(o), Right(o)})
  {
    assert forall s :: s in view ==> s !in Referrers(view, o);
  }

  lemma FewerSlotsAcyclic(slots: Slots, fewer: Slots)
    requires Acyclic(slots) && forall s :: s in fewer ==> s in slots && fewer[s] == slots[s]
    ensures Acyclic(fewer)
  {
    var rank :| Ranks(slots, rank);
    assert Ranks(fewer, rank);
  }

  lemma DeletedRecorded(h: State, o: Object)
    requires Recorded(h.refCount, h.deleted, h.raw, h.next)
    requires o in h.refCount && h.refCount[o] == 1
    ensures Recorded(h.refCount - {o}, h.deleted + [o], h.raw, h.next)
  {
  }

  // A count that falls to zero: no SMARTP leads to the object any more, and its members owe
  // their own reference.
  lemma DeletedConsistent(h: State, o: Object, owed: multiset<Object>, busy: Option<Slot>)
    requires Consistent(h, owed + multiset{o}, busy)
    requires o in h.refCount && h.refCount[o] == 1
    requires busy.Some? && !busy.value.Variable? ==> busy.value.owner != o
    ensures Left(o) in h.slots && Right(o) in h.slots
    ensures Consistent(Deleted(h, o),
        owed + Owed(h.slots[Left(o)]) + Owed(h.slots[Right(o)]), busy)
  {
    hide Counted, Refs, Closed, Recorded, Acyclic, Settled;
    var view := Settled(h.slots, busy);
    ClosedMembers(h.refCount.Keys, view, o);
    DeletedView(h.slots, busy, o);
    DeletedCounted(h.refCount, view, o, owed);
    DeletedClosed(h.refCount.Keys, view, o);
    DeletedRecorded(h, o);
    FewerSlotsAcyclic(h.slots, h.slots - {Left(o), Right(o)});
    assert (h.refCount - {o}).Keys == h.refCount.Keys - {o};
  }

  lemma DeletedView(slots: Slots, busy: Option<Slot>, o: Object)
    requires busy.Some? ==> busy.value in slots && (busy.value.Variable? || busy.value.owner != o)
    requires Left(o) in Settled(slots, busy) && Right(o) in Settled(slots, busy)
    ensures Left(o) in slots && Settled(slots, busy)[Left(o)] == slots[Left(o)]
    ensures Right(o) in slots && Settled(slots, busy)[Right(o)] == slots[Right(o)]
    ensures Settled(slots - {Left(o), Right(o)}, busy) == Settled(slots, busy) - {Left(o), Right(o)}
    ensures busy.Some? ==> busy.value in slots - {Left(o), Right(o)}
  {
  }

  function Created(h: State): State {
    var o := h.next;
    h.(refCount := h.refCount[o := 0], slots := h.slots[Left(o) := None][Right(o) := None],
       raw := h.raw + {o}, next := o + 1)
  }

  lemma CreatedCounted(refCount: map<Object, nat>, slots: Slots, o: Object)
    requires Counted(refCount, slots, multiset{}) && Closed(refCount.Keys, slots) && o !in refCount
    ensures Counted(refCount[o := 0], slots[Left(o) := None][Right(o) := None], multiset{})
  {
    assert Left(o) !in slots && Right(o) !in slots;
    assert Referrers(slots, o) == {};
    assert Refs(slots, o) == 0;
    hide Refs;
    forall x: Object
      ensures Refs(slots[Left(o) := None][Right(o) := None], x) == Refs(slots, x)
    {
      RefsAfterPlacing(slots, Left(o), None, x);
      RefsAfterPlacing(slots[Left(o) := None], Right(o), None, x);
    }
  }

  lemma CreatedClosed(live: set<Object>, slots: Slots, o: Object)
    requires Closed(live, slots) && o !in live
    ensures Closed(live + {o}, slots[Left(o) := None][Right(o) := None])
    ensures Left(o) !in slots && Right(o) !in slots
  {
  }

  lemma CreatedConsistent(h: State)
    requires Consistent(h, multiset{}, None)
    ensures Consistent(Created(h), multiset{}, None)
    ensures Left(h.next) !in h.slots && Right(h.next) !in h.slots && h.next !in h.refCount
    ensures forall o :: o in h.refCount ==> o < h.next && o !in h.deleted
    ensures h.next !in h.deleted
  {
    hide Counted, Closed, Acyclic;
    CreatedCounted(h.refCount, h.slots, h.next);
    CreatedClosed(h.refCount.Keys, h.slots, h.next);
    NullAcyclic(h.slots, Left(h.next));
    NullAcyclic(h.slots[Left(h.next) := None], Right(h.next));
    assert Created(h).refCount.Keys == h.refCount.Keys + {h.next};
  }

  lemma LivePointer(h: State, s: Slot)
    requires Consistent(h, multiset{}, None) && s in h.slots && h.slots[s].Some?
    ensures h.slots[s].value in h.refCount
  {
  }

  function Placed(h: State, s: Slot, p: Pointer): State { h.(slots := h.slots[s := p]) }

  lemma PlacedCounted(refCount: map<Object, nat>, slots: Slots, s: Slot, p: Pointer, owed: multiset<Object>)
    requires Counted(refCount, slots, owed + Owed(p)) && (s in slots ==> slots[s] == None)
    ensures Counted(refCount, slots[s := p], owed)
    ensures p.Some? ==> p.value in refCount
  {
    hide Refs;
    assert p.Some? ==> p.value in owed + Owed(p);
    forall x | x in refCount
      ensures refCount[x] == Refs(slots[s := p], x) + owed[x]
    {
      RefsAfterPlacing(slots, s, p, x);
      assert (owed + Owed(p))[x] == owed[x] + Owed(p)[x];
    }
    forall x | x in owed
      ensures x in refCount
    {
      assert x in owed + Owed(p);
    }
  }

  lemma PlacedClosed(live: set<Object>, slots: Slots, s: Slot, p: Pointer)
    requires Closed(live, slots) && (p.Some? ==> p.value in live) && (s.Variable? || s in slots)
    ensures Closed(live, slots[s := p])
  {
  }

  lemma NullAcyclic(slots: Slots, s: Slot)
    requires Acyclic(slots)
    ensures Acyclic(slots[s := None])
  {
    var rank :| Ranks(slots, rank);
    assert Ranks(slots[s := None], rank);
  }

  lemma VariableAcyclic(slots: Slots, v: Slot, p: Pointer)
    requires Acyclic(slots) && v.Variable?
    ensures Acyclic(slots[v := p])
  {
    var rank :| Ranks(slots, rank);
    assert Ranks(slots[v := p], rank);
  }

  // An object that nothing leads to may get any members but itself.
  lemma NewObjectAcyclic(slots: Slots, s: Slot, p: Pointer)
    requires Acyclic(slots) && !s.Variable? && p != Some(s.owner)
    requires forall t :: t in slots ==> slots[t] != Some(s.owner)
    ensures Acyclic(slots[s := p])
  {
    if p.None? {
      NullAcyclic(slots, s);
    } else {
      var rank :| Ranks(slots, rank);
      var o, q := s.owner, p.value;
      var low := if q in rank then rank else rank[q := 0];
      var height := low[q] + 1 + if o in rank then rank[o] else 0;
      assert Ranks(slots[s := p], low[o := height]);
    }
  }

  // The constructor of a SMARTP pays the reference that it owes.
  lemma PlacedConsistent(h: State, s: Slot, p: Pointer, owed: multiset<Object>)
    requires Consistent(h, owed + Owed(p), None)
    requires s in h.slots ==> h.slots[s] == None
    requires (!s.Variable? ==> s in h.slots) && Acyclic(h.slots[s := p])
    ensures Consistent(Placed(h, s, p), owed, None)
  {
    PlacedCounted(h.refCount, h.slots, s, p, owed);
    PlacedClosed(h.refCount.Keys, h.slots, s, p);
    hide Counted, Recorded, Closed, Acyclic;
  }

  lemma OpenedClosed(live: set<Object>, slots: Slots, v: Slot)
    requires Closed(live, slots) && v in slots
    ensures Closed(live, slots[v := None])
    ensures slots[v].Some? ==> slots[v].value in live
  {
  }

  lemma OpenedCounted(refCount: map<Object, nat>, slots: Slots, v: Slot)
    requires Counted(refCount, slots, multiset{}) && Closed(refCount.Keys, slots) && v in slots
    ensures Counted(refCount, slots[v := None], Owed(slots[v]))
  {
    forall x | x in refCount {
      RefsAfterRemoval(slots, v, x);
    }
  }

  // A SMARTP in the course of an assignment, or of its destruction.
  lemma Opened(h: State, v: Slot)
    requires Consistent(h, multiset{}, None) && v in h.slots
    ensures Consistent(h, Owed(h.slots[v]), Some(v))
    ensures h.slots[v].Some? ==> h.slots[v].value in h.refCount
  {
    hide Counted, Closed, Acyclic, Recorded;
    OpenedClosed(h.refCount.Keys, h.slots, v);
    OpenedCounted(h.refCount, h.slots, v);
  }

  lemma Stored(h: State, v: Slot, p: Pointer)
    requires Consistent(h, Owed(p), Some(v)) && Acyclic(h.slots[v := p])
    ensures Consistent(Placed(h, v, p), multiset{}, None)
    ensures p.Some? ==> p.value in h.refCount
  {
    hide Refs, Acyclic, Recorded, Ranks;
    var view := h.slots[v := None];
    assert h.slots[v := p] == view[v := p];
    assert Owed(p) == multiset{} + Owed(p);
    PlacedCounted(h.refCount, view, v, p, multiset{});
    PlacedClosed(h.refCount.Keys, view, v, p);
    hide Counted, Recorded, Closed, Acyclic;
  }

  lemma DestroyedCounted(refCount: map<Object, nat>, slots: Slots, v: Slot, owed: multiset<Object>)
    requires Counted(refCount, slots[v := None], owed)
    ensures Counted(refCount, slots - {v}, owed)
  {
    hide Refs;
    forall o | o in refCount ensures refCount[o] == Refs(slots - {v}, o) + owed[o] {
      NullCountsNothing(slots, v, o);
    }
  }

  lemma DestroyedClosed(live: set<Object>, slots: Slots, v: Slot)
    requires Closed(live, slots[v := None]) && v.Variable?
    ensures Closed(live, slots - {v})
  {
    assert forall s :: s in slots - {v} ==> s in slots[v := None] && slots[v := None][s] == slots[s];
    assert forall s: Slot :: !s.Variable? ==> (s in slots - {v} <==> s in slots[v := None]);
  }

  lemma Destroyed(h: State, v: Slot)
    requires Consistent(h, multiset{}, Some(v)) && v.Variable?
    ensures Consistent(h.(slots := h.slots - {v}), multiset{}, None)
  {
    FewerSlotsAcyclic(h.slots, h.slots - {v});
    DestroyedCounted(h.refCount, h.slots, v, multiset{});
    DestroyedClosed(h.refCount.Keys, h.slots, v);
    hide Counted, Closed, Recorded, Acyclic;
  }

  lemma OverwriteMembers(slots: Slots, o: Object, left: Pointer, right: Pointer)
    ensures slots[Left(o) := None][Right(o) := None][Left(o) := left][Right(o) := right]
      == slots[Left(o) := left][Right(o) := right]
  {
  }

  // A way to the last object of the path: from a variable, or from an object that was created
  // and never held, through members.
  ghost predicate Path(h: State, path: seq<Object>) {
    && |path| > 0
    && (path[0] in h.raw || exists n :: HoldsAt(h.slots, Variable(n), path[0]))
    && (forall i :: 0 < i < |path| ==>
         HoldsAt(h.slots, Left(path[i - 1]), path[i]) || HoldsAt(h.slots, Right(path[i - 1]), path[i]))
  }

  ghost predicate HoldsAt(slots: Slots, s: Slot, o: Object) { s in slots && slots[s] == Some(o) }

  // No garbage: what is not deleted can be reached.
  lemma LiveIsReachable(h: State, o: Object) returns (path: seq<Object>)
    requires Consistent(h, multiset{}, None) && o in h.refCount
    ensures Path(h, path) && path[|path| - 1] == o
  {
    var rank :| Ranks(h.slots, rank);
    var top := TopRank(rank);
    path := ReachedFromAbove(h, o, rank, top);
  }

  lemma {:induction false} TopRank(rank: map<Object, nat>) returns (top: nat)
    ensures forall o :: o in rank ==> rank[o] <= top
    decreases |rank|
  {
    if o :| o in rank {
      top := TopRank(rank - {o});
      if top < rank[o] {
        top := rank[o];
      }
      assert forall x :: x in rank ==> x == o || x in rank - {o};
    } else {
      top := 0;
    }
  }

  lemma {:induction false} ReachedFromAbove(h: State, o: Object, rank: map<Object, nat>, top: nat)
    returns (path: seq<Object>)
    requires Consistent(h, multiset{}, None) && o in h.refCount
    requires Ranks(h.slots, rank) && forall x :: x in rank ==> rank[x] <= top
    ensures Path(h, path) && path[|path| - 1] == o
    decreases if o in rank then top - rank[o] else 0
  {
    path := [o];
    if o !in h.raw {
      assert Refs(h.slots, o) > 0;
      var s :| s in Referrers(h.slots, o);
      assert HoldsAt(h.slots, s, o);
      if !s.Variable? {
        assert s.owner in h.refCount by {
          assert s == Left(s.owner) || s == Right(s.owner);
        }
        var above := ReachedFromAbove(h, s.owner, rank, top);
        path := above + [o];
      }
    }
  }

  // When no variable is left on an object and none was created without a SMARTP, every object
  // ever created has been deleted.
  lemma NothingLeaks(h: State)
    requires Consistent(h, multiset{}, None) && h.raw == {}
    requires forall s :: s in h.slots && s.Variable? ==> h.slots[s] == None
    ensures h.refCount == map[]
    ensures forall o :: 0 <= o < h.next ==> o in h.deleted
  {
    if o :| o in h.refCount {
      var path := LiveIsReachable(h, o);
      assert false;
    }
  }

  // The deletion of this object does not reach the owner of the member that is being assigned.
  ghost predicate Spares(rank: map<Object, nat>, o: Object, busy: Option<Slot>) {
    busy.Some? && !busy.value.Variable? ==>
      o in rank && busy.value.owner in rank && rank[o] < rank[busy.value.owner]
  }

  lemma RankOf(h: State) returns (rank: map<Object, nat>)
    requires Consistent(h, multiset{}, None)
    ensures Ranks(h.slots, rank)
  {
    rank :| Ranks(h.slots, rank);
  }

  lemma VariableIsAcyclic(h: State, v: Slot, p: Pointer)
    requires Consistent(h, multiset{}, None) && v.Variable?
    ensures Acyclic(h.slots[v := p])
  {
    VariableAcyclic(h.slots, v, p);
  }

  lemma OwnerSpared(slots: Slots, rank: map<Object, nat>, v: Slot)
    requires Ranks(slots, rank) && v in slots && slots[v].Some?
    ensures Spares(rank, slots[v].value, Some(v))
  {
  }

  lemma MembersSpare(slots: Slots, rank: map<Object, nat>, o: Object, busy: Option<Slot>)
    requires Ranks(slots, rank) && Spares(rank, o, busy) && Left(o) in slots && Right(o) in slots
    ensures slots[Left(o)].Some? ==> Spares(rank, slots[Left(o)].value, busy)
    ensures slots[Right(o)].Some? ==> Spares(rank, slots[Right(o)].value, busy)
  {
  }

  lemma FewerSlotsRanked(slots: Slots, fewer: Slots, rank: map<Object, nat>)
    requires Ranks(slots, rank) && forall s :: s in fewer ==> s in slots && fewer[s] == slots[s]
    ensures Ranks(fewer, rank)
  {
  }

  lemma StillRanked(g: State, h: State, rank: map<Object, nat>)
    requires OnlyDeletes(g, h) && Ranks(g.slots, rank)
    ensures Ranks(h.slots, rank)
  {
  }

  lemma BusyIsThere(h: State, owed: multiset<Object>, v: Slot)
    requires Consistent(h, owed, Some(v))
    ensures v in h.slots
  {
  }

  lemma NothingLeadsTo(h: State, o: Object)
    requires Consistent(h, multiset{}, None) && o in h.refCount && h.refCount[o] == 0
    ensures forall s :: s in h.slots ==> h.slots[s] != Some(o)
    ensures Acyclic(h.slots)
  {
    NoReferrer(h.slots, o);
  }

  // The next deletion is that of this object.
  ghost predicate NextDeleted(before: seq<Object>, after: seq<Object>, o: Object) { before + [o] <= after }

  lemma FirstDeletions(h: State, h1: State, h2: State, h3: State, o: Object, right: Pointer)
    requires h1.deleted == h.deleted + [o] && OnlyDeletes(h1, h2) && OnlyDeletes(h2, h3)
    ensures NextDeleted(h.deleted, h3.deleted, o)
    ensures right.Some? && NextDeleted(h1.deleted, h2.deleted, right.value) ==>
      NextDeleted(h.deleted + [o], h3.deleted, right.value)
  {
  }

  class Heap {
    var refCount: map<Object, nat>
    var slots: Slots
    ghost var deleted: seq<Object>
    ghost var raw: set<Object>
    var next: Object

    ghost function Now(): State
      reads this
    {
      State(refCount, slots, deleted, raw, next)
    }

    ghost predicate Valid()
      reads this
    {
      Consistent(Now(), multiset{}, None)
    }

    constructor ()
      ensures Valid() && Now() == State(map[], map[], [], {}, 0)
    {
      refCount, slots, deleted, raw, next := map[], map[], [], {}, 0;
      new;
      assert Ranks(slots, map[]);
    }

    method AddReference(o: Object, ghost owed: multiset<Object>, ghost busy: Option<Slot>)
      requires Consistent(Now(), owed, busy) && o in refCount
      modifies this`refCount, this`raw
      ensures Now() == Referenced(old(Now()), o)
      ensures Consistent(Now(), owed + multiset{o}, busy)
    {
      hide Consistent;
      ReferencedConsistent(Now(), o, owed, busy);
      refCount := refCount[o := refCount[o] + 1];
      raw := raw - {o};
    }

    // removeReference, and the destructor that it runs when the count falls to zero: the
    // members are destroyed in the reverse order of their declaration. The cascade only reaches
    // objects of lower ranks, so that it spares the owner of a member that is being assigned.
    method RemoveReference(o: Object, ghost owed: multiset<Object>, ghost busy: Option<Slot>,
                           ghost rank: map<Object, nat>)
      requires Consistent(Now(), owed + multiset{o}, busy)
      requires Ranks(slots, rank) && Spares(rank, o, busy)
      modifies this`refCount, this`slots, this`deleted
      ensures Consistent(Now(), owed, busy)
      ensures OnlyDeletes(old(Now()), Now())
      ensures o in deleted <==> old(refCount)[o] == 1
      ensures old(refCount)[o] == 1 ==> NextDeleted(old(deleted), deleted, o)
      ensures old(refCount)[o] == 1 ==> Right(o) in old(slots)
      ensures old(refCount)[o] == 1 && old(slots)[Right(o)].Some? ==>
        var r := old(slots)[Right(o)].value;
        r != o && r in old(refCount) && (old(refCount)[r] == 1 ==> NextDeleted(old(deleted) + [o], deleted, r))
      decreases refCount.Keys, 0
    {
      hide Consistent, OnlyDeletes;
      ghost var h := Now();
      UnreferencedConsistent(h, o, owed, busy);
      refCount := refCount[o := refCount[o] - 1];
      if refCount[o] == 0 {
        DeletedConsistent(h, o, owed, busy);
        DeletedOnlyDeletes(h, o);
        MembersSpare(slots, rank, o, busy);
        FewerSlotsRanked(slots, slots - {Left(o), Right(o)}, rank);
        var right, left := slots[Right(o)], slots[Left(o)];
        refCount := refCount - {o};
        slots := slots - {Left(o), Right(o)};
        deleted := deleted + [o];
        ghost var h1 := Now();
        assert h1 == Deleted(h, o);
        DestroyMember(right, owed + Owed(left), busy, rank);
        ghost var h2 := Now();
        OnlyDeletesTransitive(h, h1, h2);
        StillRanked(h1, h2, rank);
        DestroyMember(left, owed, busy, rank);
        OnlyDeletesTransitive(h, h2, Now());
        FirstDeletions(h, h1, h2, Now(), o, right);
      } else {
        NothingDeleted(h, Now());
      }
    }

    // ~SMARTP, on a member of an object that is being deleted
    method DestroyMember(p: Pointer, ghost owed: multiset<Object>, ghost busy: Option<Slot>,
                         ghost rank: map<Object, nat>)
      requires Consistent(Now(), owed + Owed(p), busy)
      requires Ranks(slots, rank) && (p.Some? ==> Spares(rank, p.value, busy))
      modifies this`refCount, this`slots, this`deleted
      ensures Consistent(Now(), owed, busy)
      ensures OnlyDeletes(old(Now()), Now())
      ensures p.Some? ==> p.value in old(refCount)
      ensures p.Some? && old(refCount)[p.value] == 1 ==> NextDeleted(old(deleted), deleted, p.value)
      decreases refCount.Keys, 1
    {
      hide Consistent;
      if p.Some? {
        UnreferencedConsistent(Now(), p.value, owed, busy);
        RemoveReference(p.value, owed, busy, rank);
      } else {
        assert owed + Owed(p) == owed;
      }
    }

    // The constructors of SMARTP, for a member or a variable.
    method Construct(s: Slot, p: Pointer)
      requires Valid() && (p.Some? ==> p.value in refCount)
      requires s in slots ==> slots[s] == None
      requires (!s.Variable? ==> s in slots) && Acyclic(slots[s := p])
      modifies this`refCount, this`raw, this`slots
      ensures Valid()
      ensures slots == old(slots)[s := p] && refCount.Keys == old(refCount).Keys
      ensures forall o :: o in refCount ==> refCount[o] == old(refCount)[o] + Owed(p)[o]
    {
      hide Consistent;
      if p.Some? {
        AddReference(p.value, multiset{}, None);
      }
      assert Consistent(Now(), multiset{} + Owed(p), None) by {
        assert multiset{} + Owed(p) == if p.Some? then multiset{p.value} else multiset{};
        assert p.Some? ==> multiset{} + multiset{p.value} == Owed(p);
      }
      PlacedConsistent(Now(), s, p, multiset{});
      slots := slots[s := p];
    }

    // `new`, with raw pointers to the two members: the object has no reference yet.
    method Create(left: Pointer, right: Pointer) returns (o: Object)
      requires Valid()
      requires left.Some? ==> left.value in refCount
      requires right.Some? ==> right.value in refCount
      modifies this
      ensures Valid() && o !in old(refCount) && o !in old(deleted)
      ensures refCount.Keys == old(refCount).Keys + {o} && refCount[o] == 0 && deleted == old(deleted)
      ensures slots == old(slots)[Left(o) := left][Right(o) := right]
    {
      hide Consistent, Acyclic, Ranks;
      CreatedConsistent(Now());
      NothingLeadsTo(Created(Now()), next);
      OverwriteMembers(slots, next, left, right);
      o := next;
      refCount, slots := refCount[o := 0], slots[Left(o) := None][Right(o) := None];
      raw, next := raw + {o}, o + 1;
      assert Now() == Created(old(Now()));
      NewObjectAcyclic(slots, Left(o), left);
      Construct(Left(o), left);
      NewObjectAcyclic(slots, Right(o), right);
      Construct(Right(o), right);
    }

    // operator=(T*), to which the other assignments lead: the new object first, then the old one. A
    // member may be assigned too, as long as no cycle is made.
    method Assign(v: Slot, p: Pointer)
      requires Valid() && v in slots && (p.Some? ==> p.value in refCount)
      requires !v.Variable? ==> Acyclic(slots[v := p])
      modifies this
      ensures Valid()
      ensures v in slots && slots[v] == p && (p.Some? ==> p.value in refCount)
      ensures forall w :: w in old(slots) && w != v ==>
        (if w in slots then slots[w] == old(slots)[w] else !w.Variable? && w.owner in deleted)
      ensures forall w :: w in slots ==> w in old(slots)
      ensures old(deleted) <= deleted
      ensures old(slots)[v] == p ==> Now() == old(Now())
      ensures old(slots)[v].Some? && old(slots)[v] != p ==>
        (old(slots)[v].value in deleted <==> old(refCount)[old(slots)[v].value] == 1)
    {
      hide Consistent, Ranks, Acyclic;
      var q := slots[v];
      if q != p {
        ghost var rank := RankOf(Now());
        Opened(Now(), v);
        if v.Variable? {
          VariableIsAcyclic(Now(), v, p);
        }
        ghost var after := slots[v := p];
        if p.Some? {
          AddReference(p.value, Owed(q), Some(v));
        }
        assert Consistent(Now(), Owed(p) + Owed(q), Some(v)) by {
          assert p.None? ==> Owed(p) + Owed(q) == Owed(q);
          assert p.Some? ==> Owed(p) + Owed(q) == Owed(q) + multiset{p.value};
        }
        if q.Some? {
          OwnerSpared(slots, rank, v);
          RemoveReference(q.value, Owed(p), Some(v), rank);
        } else {
          assert Owed(p) + Owed(q) == Owed(p);
        }
        BusyIsThere(Now(), Owed(p), v);
        FewerSlotsAcyclic(after, slots[v := p]);
        Stored(Now(), v, p);
        slots := slots[v := p];
      }
    }

    // ~SMARTP, on a variable
    method Destroy(v: Slot)
      requires Valid() && v.Variable? && v in slots
      modifies this
      ensures Valid()
      ensures v !in slots && old(deleted) <= deleted
      ensures forall w :: w in old(slots) && w.Variable? && w != v ==> w in slots && slots[w] == old(slots)[w]
      ensures forall w :: w in slots ==> w in old(slots) && slots[w] == old(slots)[w]
      ensures old(slots)[v].Some? ==>
        (old(slots)[v].value in deleted <==> old(refCount)[old(slots)[v].value] == 1)
    {
      hide Consistent;
      var q := slots[v];
      ghost var rank := RankOf(Now());
      Opened(Now(), v);
      if q.Some? {
        assert Owed(q) == multiset{} + multiset{q.value};
        RemoveReference(q.value, multiset{}, Some(v), rank);
      }
      Destroyed(Now(), v);
      slots := slots - {v};
    }

    // p = p->left
    method AssignLeft(v: Slot)
      requires Valid() && v.Variable? && v in slots && slots[v].Some?
      modifies this
      ensures Valid()
      ensures v in slots && slots[v] == old(slots[Left(slots[v].value)])
      ensures slots[v].Some? ==> slots[v].value in refCount
    {
      var p := slots[Left(slots[v].value)];
      if p.Some? {
        LivePointer(Now(), Left(slots[v].value));
      }
      hide Consistent;
      Assign(v, p);
    }
  }
}
