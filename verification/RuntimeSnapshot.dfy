/**
 * One published runtime snapshot (internal/runtime/snapshot.go).
 *
 * `Snap` is the value of a snapshot's mutex-protected fields. The functions on it are the
 * critical sections of the three operations; the `Snapshot` class runs each operation from
 * start to end. The protocol module interleaves the critical sections one by one.
 */
module RuntimeSnapshot {

  /** `signalling` holds while a goroutine has decided to close the drained channel and has
      not done so yet: that close happens after the mutex is released. */
  datatype Snap = Snap(
    generation: nat,
    members: set<nat>,
    active: nat,
    retired: bool,
    signalling: bool,
    drained: bool)

  function NewSnap(generation: nat, members: set<nat>): Snap
  {
    Snap(generation, members, 0, false, false, false)
  }

  function Acquired(s: Snap): Snap
  {
    if s.retired then s else s.(active := s.active + 1)
  }

  function Released(s: Snap): Snap
  {
    var left := if s.active > 0 then s.active - 1 else 0;
    s.(active := left, signalling := s.signalling || (s.retired && left == 0))
  }

  function Retired(s: Snap): Snap
  {
    s.(retired := true, signalling := s.signalling || s.active == 0)
  }

  function Signalled(s: Snap): Snap
  {
    if s.signalling then s.(signalling := false, drained := true) else s
  }

  /** What holds of a snapshot in every reachable state. */
  predicate Coherent(s: Snap)
  {
    s.signalling || s.drained <==> s.retired && s.active == 0
  }

  class Snapshot {
    const generation: nat
    const members: set<nat>
    var active: nat
    var retired: bool
    var drained: bool

    ghost function Value(): Snap
      reads this
    {
      Snap(generation, members, active, retired, false, drained)
    }

    constructor (generation: nat, members: set<nat>)
      ensures Value() == NewSnap(generation, members)
    {
      this.generation := generation;
      this.members := members;
      active, retired, drained := 0, false, false;
    }

    method TryAcquire() returns (ok: bool)
      modifies this
      ensures ok == !old(retired)
      ensures Value() == Acquired(old(Value()))
    {
      if retired {
        return false;
      }
      active := active + 1;
      return true;
    }

    method Release()
      modifies this
      ensures Value() == Signalled(Released(old(Value())))
      ensures old(Coherent(Value())) ==> Coherent(Value())
      ensures old(Coherent(Value()) && drained) ==> drained
    {
      if active > 0 {
        active := active - 1;
      }
      var shouldDrain := retired && active == 0;
      if shouldDrain {
        drained := true;
      }
    }

    method Retire()
      modifies this
      ensures Value() == Signalled(Retired(old(Value())))
      ensures Coherent(old(Value())) ==> Coherent(Value())
    {
      retired := true;
      var shouldDrain := active == 0;
      if shouldDrain {
        drained := true;
      }
    }
  }
}
