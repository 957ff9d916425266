/**
 * The re-entrant scheduler kick (Coordinator.tick): a call that finds the loop busy leaves a flag,
 * and the loop runs its body again as long as it finds the flag set.
 */
module TickLoop {

  datatype Event = Call | BodyReturns | BodyThrows

  datatype Loop = Loop(ticking: bool, pendingTick: bool)

  const IDLE := Loop(false, false)

  /** The flags after an event; a body that is not running can neither return nor throw. */
  function React(l: Loop, e: Event): Loop {
    match e
    case Call => if l.ticking then l.(pendingTick := true) else Loop(true, false)
    case BodyReturns => if l.ticking then Loop(l.pendingTick, false) else l
    case BodyThrows => if l.ticking then l.(ticking := false) else l
  }

  /** Does the event start a body? */
  predicate Starts(l: Loop, e: Event) {
    match e
    case Call => !l.ticking
    case BodyReturns => l.ticking && l.pendingTick
    case BodyThrows => false
  }

  predicate Ends(l: Loop, e: Event) {
    !e.Call? && l.ticking
  }

  function After(es: seq<Event>): Loop {
    if es == [] then IDLE else React(After(es[..|es| - 1]), es[|es| - 1])
  }

  /** A body starts at event `k` of the run. */
  predicate StartsAt(es: seq<Event>, k: nat) {
    k < |es| && Starts(After(es[..k]), es[k])
  }

  /** Call `i` has been answered by a body that started at the call or after it. */
  ghost predicate Served(es: seq<Event>, i: nat) {
    exists k :: i <= k && StartsAt(es, k)
  }

  ghost predicate Unserved(es: seq<Event>) {
    exists i :: 0 <= i < |es| && es[i] == Call && !Served(es, i)
  }

  /** Bodies started less bodies ended. */
  function Bodies(es: seq<Event>): int {
    if es == [] then 0
    else
      var l, e := After(es[..|es| - 1]), es[|es| - 1];
      Bodies(es[..|es| - 1]) + (if Starts(l, e) then 1 else 0) - (if Ends(l, e) then 1 else 0)
  }

  /** One body runs while the loop is ticking and none otherwise: bodies never overlap. */
  lemma {:induction false} BodiesNeverOverlap(es: seq<Event>)
    ensures Bodies(es) == if After(es).ticking then 1 else 0
  {
    if es != [] { BodiesNeverOverlap(es[..|es| - 1]); }
  }

  lemma StartsInPrefix(es: seq<Event>, k: nat, n: nat)
    requires k < n <= |es|
    ensures StartsAt(es[..n], k) <==> StartsAt(es, k)
  {
    assert es[..n][..k] == es[..k];
  }

  lemma ServedInPrefix(es: seq<Event>, i: nat)
    requires es != [] && !StartsAt(es, |es| - 1)
    ensures Served(es, i) <==> Served(es[..|es| - 1], i)
  {
    var n := |es| - 1;
    forall k | 0 <= k < n ensures StartsAt(es[..n], k) <==> StartsAt(es, k) { StartsInPrefix(es, k, n); }
    hide Starts, After;
    assert Served(es, i) ==> Served(es[..n], i) by {
      if k :| i <= k && StartsAt(es, k) { assert StartsAt(es[..n], k); }
    }
    assert Served(es[..n], i) ==> Served(es, i) by {
      if k :| i <= k && StartsAt(es[..n], k) { assert StartsAt(es, k); }
    }
  }

  lemma UnservedGrows(es: seq<Event>)
    requires es != [] && !StartsAt(es, |es| - 1)
    ensures Unserved(es) <==> Unserved(es[..|es| - 1]) || es[|es| - 1] == Call
  {
    var n := |es| - 1;
    forall i | 0 <= i <= n ensures Served(es, i) <==> Served(es[..n], i) { ServedInPrefix(es, i); }
    assert !Served(es[..n], n);
    hide Served, StartsAt;
    assert Unserved(es[..n]) ==> Unserved(es) by {
      if i :| 0 <= i < n && es[..n][i] == Call && !Served(es[..n], i) { assert es[i] == Call; }
    }
    assert Unserved(es) && es[n] != Call ==> Unserved(es[..n]) by {
      if i :| 0 <= i <= n && es[i] == Call && !Served(es, i) { assert i < n ==> es[..n][i] == Call; }
    }
  }

  /** The flag is set exactly when some call has not been served yet. */
  lemma {:induction false} PendingIffUnserved(es: seq<Event>)
    ensures After(es).pendingTick <==> Unserved(es)
  {
    if es != [] {
      var n := |es| - 1;
      PendingIffUnserved(es[..n]);
      if Starts(After(es[..n]), es[n]) {
        assert StartsAt(es, n);
        forall i | 0 <= i < |es| ensures Served(es, i) {}
      } else {
        UnservedGrows(es);
        hide Unserved;
      }
    }
  }

  /** Bodies run on demand: each one that starts serves a call nobody has served before, its own or one left by the flag. */
  lemma BodiesStartForCalls(es: seq<Event>, k: nat)
    requires k < |es|
    ensures StartsAt(es, k) <==>
              (es[k] == Call && !After(es[..k]).ticking)
              || (es[k] == BodyReturns && After(es[..k]).ticking && Unserved(es[..k]))
  {
    PendingIffUnserved(es[..k]);
    hide Unserved;
  }

  ghost predicate NoThrow(es: seq<Event>) {
    forall i | 0 <= i < |es| :: es[i] != BodyThrows
  }

  lemma {:induction false} NoThrowNoGap(es: seq<Event>)
    requires NoThrow(es)
    ensures After(es).pendingTick ==> After(es).ticking
  {
    if es != [] {
      NoThrowNoGap(es[..|es| - 1]);
    }
  }

  /**
   * No lost wakeup: as long as no body throws, an unserved call means a body is running and the flag
   * is set, so once the loop is idle every call has been served.
   */
  lemma NoLostWakeup(es: seq<Event>)
    requires NoThrow(es)
    ensures Unserved(es) ==> After(es).ticking && After(es).pendingTick
    ensures !After(es).ticking ==> forall i | 0 <= i < |es| && es[i] == Call :: Served(es, i)
  {
    PendingIffUnserved(es);
    NoThrowNoGap(es);
  }

  /** The run's last body threw, at event `k`, with the flag set, and nobody has called since. */
  ghost predicate ThrewAway(es: seq<Event>, k: nat) {
    && k < |es| && es[k] == BodyThrows
    && After(es[..k]).ticking && After(es[..k]).pendingTick
    && forall i | k < i < |es| :: es[i] != Call
  }

  lemma {:induction false} ThrownFlagStays(es: seq<Event>, k: nat)
    requires ThrewAway(es, k)
    ensures After(es) == Loop(false, true)
  {
    var n := |es| - 1;
    if k < n {
      assert es[..n][..k] == es[..k];
      ThrownFlagStays(es[..n], k);
    }
  }

  /** With throwing bodies, an idle loop has lost a wakeup if and only if its last body threw with the flag set. */
  lemma {:induction false} WakeupLostIff(es: seq<Event>)
    ensures !After(es).ticking && Unserved(es) <==> exists k :: ThrewAway(es, k)
  {
    PendingIffUnserved(es);
    if k :| ThrewAway(es, k) { ThrownFlagStays(es, k); }
    if !After(es).ticking && After(es).pendingTick {
      var k := LastThrow(es);
    }
  }

  lemma {:induction false} LastThrow(es: seq<Event>) returns (k: nat)
    requires !After(es).ticking && After(es).pendingTick
    ensures ThrewAway(es, k)
  {
    var n := |es| - 1;
    if After(es[..n]).ticking {
      return n;
    }
    k := LastThrow(es[..n]);
    assert es[..n][..k] == es[..k];
  }

  /** The two flags of the coordinator, updated as `tick` updates them. */
  class Ticker {
    var ticking: bool
    var pendingTick: bool

    function Flags(): Loop
      reads this
    {
      Loop(ticking, pendingTick)
    }

    constructor ()
      ensures Flags() == IDLE
    {
      ticking, pendingTick := false, false;
    }

    /** Everything `tick` does up to its first await; tells whether a body starts. */
    method Tick() returns (start: bool)
      modifies this
      ensures Flags() == React(old(Flags()), Call) && start == Starts(old(Flags()), Call)
      ensures start == !old(ticking) && ticking && pendingTick == old(ticking)
    {
      if ticking {
        pendingTick := true;
        return false;
      }
      ticking := true;
      pendingTick := false;
      return true;
    }

    /** The loop condition, when a body has returned. */
    method Returned() returns (again: bool)
      requires ticking
      modifies this
      ensures Flags() == React(old(Flags()), BodyReturns) && again == Starts(old(Flags()), BodyReturns)
      ensures again == ticking == old(pendingTick) && !pendingTick
    {
      if pendingTick {
        pendingTick := false;
        return true;
      }
      ticking := false;
      return false;
    }

    /** The `finally` block alone, when a body has thrown. */
    method Threw()
      requires ticking
      modifies this
      ensures Flags() == React(old(Flags()), BodyThrows)
      ensures !ticking && pendingTick == old(pendingTick)
    {
      ticking := false;
    }
  }
}
