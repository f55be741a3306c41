/**
 * The guard that keeps the operations of one client from overlapping: a
 * shared counter that an operation increments on entry, and a token whose
 * disposal decrements it again when the operation leaves.
 */
module Reentrancy {
  import opened LircTypes

  /**
   * Entering with counter `c`: the incremented counter, or None when the
   * increment exceeds one, in which case the counter is put back.
   */
  function Enter(c: int): (r: Option<int>)
    ensures r.None? <==> c >= 1
    ensures r.Some? ==> r.value == c + 1 && r.value <= 1
  {
    if c + 1 > 1 then None else Some(c + 1)
  }

  /** Disposing a token: after the one outstanding token is disposed, entry is allowed again. */
  function Leave(c: int): (r: int)
    ensures c == 1 ==> Enter(r) == Some(c)
    ensures r < c
  {
    c - 1
  }

  /** An operation entering the guard, or one disposing the token it received. */
  datatype GuardStep = Acquire | Release

  /** The counter and the number of tokens handed out and not yet disposed. */
  datatype Guard = Guard(counter: int, held: nat)

  /**
   * A history of entries and disposals from a fresh guard, or None when
   * some disposal has no outstanding token to dispose.
   */
  function Replay(steps: seq<GuardStep>): Option<Guard>
  {
    if steps == [] then Some(Guard(0, 0))
    else
      match Replay(steps[..|steps| - 1])
      case None => None
      case Some(g) =>
        match steps[|steps| - 1]
        case Acquire =>
          (match Enter(g.counter)
           case None => Some(g)
           case Some(c) => Some(Guard(c, g.held + 1)))
        case Release =>
          if g.held == 0 then None else Some(Guard(Leave(g.counter), g.held - 1))
  }

  /**
   * Mutual exclusion: whatever the interleaving of entries and disposals,
   * the counter equals the number of tokens outstanding, and at most one
   * token is outstanding at any time.
   */
  lemma {:induction false} GuardExcludes(steps: seq<GuardStep>)
    requires Replay(steps).Some?
    ensures Replay(steps).value.counter == Replay(steps).value.held
    ensures Replay(steps).value.held <= 1
  {
    if steps != [] {
      GuardExcludes(steps[..|steps| - 1]);
    }
  }

  /** A refused entry leaves the counter as it was; an accepted one is undone by the disposal. */
  lemma EnterLeave(c: int)
    ensures Enter(c).None? <==> c >= 1
    ensures Enter(c).Some? ==> Leave(Enter(c).value) == c
  {
  }

  class ReentrancyPrevention {
    var counter: int

    constructor()
      ensures counter == 0
    {
      counter := 0;
    }

    /**
     * Hands out a token when no other operation holds one; otherwise the
     * increment is undone and NotReentrant is raised.
     */
    method AssertNotReentrant() returns (r: Result<DisposeToken>)
      modifies this
      ensures r.Ok? <==> Enter(old(counter)).Some?
      ensures r.Ok? ==> counter == Enter(old(counter)).value && fresh(r.value) && r.value.parent == this
      ensures r.Err? ==> r.error == NotReentrant && counter == old(counter)
    {
      counter := counter + 1;
      if counter > 1 {
        counter := counter - 1;
        return Err(NotReentrant);
      }
      var token := new DisposeToken(this);
      return Ok(token);
    }
  }

  class DisposeToken {
    const parent: ReentrancyPrevention

    constructor(parent: ReentrancyPrevention)
      ensures this.parent == parent
    {
      this.parent := parent;
    }

    /** Leaves the guard; disposing twice decrements twice, as the source does. */
    method Dispose()
      modifies parent
      ensures parent.counter == Leave(old(parent.counter))
    {
      parent.counter := parent.counter - 1;
    }
  }
}
