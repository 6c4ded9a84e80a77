/**
 * The driver's object table, seen only through allocate, free, lookup and
 * store. Freed objects stay in `objects` (their last contents remain
 * observable) but are no longer `live`, so a lookup of their id fails.
 */
module ObjectHeap {
  import opened VaTypes

  datatype Heap<T> = Heap(objects: map<Id, T>, live: set<Id>, next: Id) {
    ghost predicate Valid() {
      live <= objects.Keys &&
      next >= 0 &&
      forall id :: id in objects ==> 0 <= id < next
    }
  }

  /** object_heap_allocate: a fresh id, never handed out before, whose slot
      holds `init`; every existing object keeps its contents. */
  function Allocate<T>(h: Heap<T>, init: T): (r: (Heap<T>, Id))
    requires h.Valid()
    ensures r.0.Valid()
    ensures r.1 >= 0 && r.1 !in h.objects && r.1 !in h.live
    ensures r.0.live == h.live + {r.1}
    ensures r.1 in r.0.objects && r.0.objects[r.1] == init
    ensures forall id :: id in h.objects ==> id in r.0.objects && r.0.objects[id] == h.objects[id]
  {
    (Heap(h.objects[h.next := init], h.live + {h.next}, h.next + 1), h.next)
  }

  /** object_heap_free: the id stops resolving; nothing else changes. */
  function Free<T>(h: Heap<T>, id: Id): (r: Heap<T>)
    requires h.Valid()
    ensures r.Valid()
    ensures id !in r.live && r.live == h.live - {id}
    ensures r.objects == h.objects
  {
    h.(live := h.live - {id})
  }

  /** The CONTEXT(...) lookup: an object exactly when its id is live. */
  function Lookup<T>(h: Heap<T>, id: Id): (r: Option<T>)
    requires h.Valid()
    ensures r.Some? <==> id in h.live
    ensures r.Some? ==> r.value == h.objects[id]
  {
    if id in h.live then Some(h.objects[id]) else None
  }

  /** Writing the fields of a live object in place. */
  function Store<T>(h: Heap<T>, id: Id, v: T): (r: Heap<T>)
    requires h.Valid() && id in h.live
    ensures r.Valid() && r.live == h.live
  {
    h.(objects := h.objects[id := v])
  }

  /** A second store to the same object overrides the first. */
  lemma StoreTwice<T>(h: Heap<T>, id: Id, v: T, w: T)
    requires h.Valid() && id in h.live
    ensures Store(Store(h, id, v), id, w) == Store(h, id, w)
  {
    assert h.objects[id := v][id := w] == h.objects[id := w];
  }

  /** Allocating and then freeing the new id gives back the same set of live ids. */
  lemma AllocateFreeRestoresLive<T>(h: Heap<T>, init: T, v: T)
    requires h.Valid()
    ensures var (h1, id) := Allocate(h, init);
            Free(Store(h1, id, v), id).live == h.live
  {
  }
}
