/**
 Shelf health monitor: a per-shelf online flag and last-heartbeat time for the
 five shelves, kept up to date by heartbeats, a periodic staleness sweep and
 transport closure.
 */
module Health {

  /** Number of shelves; they are numbered 1 through ShelfCount. */
  const ShelfCount: nat := 5

  /** A shelf whose last heartbeat is more than this many ms old is stale. */
  const StaleAfterMs: nat := 30000

  /** Health of one shelf: its online flag and the time (ms) of its last heartbeat. */
  datatype ShelfHealth = ShelfHealth(online: bool, lastHeartbeat: nat)

  const Unseen: ShelfHealth := ShelfHealth(false, 0)

  /** Health of every shelf; shelf `s` lives at index `s - 1`. */
  type Shelves = h: seq<ShelfHealth> | |h| == ShelfCount
    witness [Unseen, Unseen, Unseen, Unseen, Unseen]

  /** Start-up state: every shelf offline, every heartbeat stamped 0. */
  const Initial: Shelves := [Unseen, Unseen, Unseen, Unseen, Unseen]

  predicate ValidShelf(shelf: int) {
    1 <= shelf <= ShelfCount
  }

  /**
   The online flag as the dispenser reads it. A shelf number outside 1..5 has
   no entry, which reads as offline.
   */
  predicate IsOnline(h: Shelves, shelf: int) {
    ValidShelf(shelf) && h[shelf - 1].online
  }

  function LastHeartbeat(h: Shelves, shelf: int): nat
    requires ValidShelf(shelf)
  {
    h[shelf - 1].lastHeartbeat
  }

  /** True when the last heartbeat of `s` is more than StaleAfterMs old at `now`. */
  predicate Stale(s: ShelfHealth, now: nat) {
    now - s.lastHeartbeat > StaleAfterMs
  }

  /**
   A heartbeat from `shelf` at time `now`: that shelf goes online stamped with
   `now`, every other shelf keeps its flag and stamp, and a shelf number
   outside 1..5 changes nothing.
   */
  function RecordHeartbeat(h: Shelves, shelf: int, now: nat): (r: Shelves)
    ensures ValidShelf(shelf) ==> IsOnline(r, shelf) && LastHeartbeat(r, shelf) == now
    ensures forall t :: ValidShelf(t) && t != shelf ==>
              IsOnline(r, t) == IsOnline(h, t) && LastHeartbeat(r, t) == LastHeartbeat(h, t)
    ensures !ValidShelf(shelf) ==> r == h
  {
    if ValidShelf(shelf) then h[shelf - 1 := ShelfHealth(true, now)] else h
  }

  /** One pass of the sweep loop, for shelves `shelf` through 5 in turn. */
  function SweepFrom(h: Shelves, now: nat, shelf: nat): (r: Shelves)
    requires 1 <= shelf <= ShelfCount + 1
    ensures forall i :: 0 <= i < ShelfCount ==> r[i].lastHeartbeat == h[i].lastHeartbeat
    ensures forall i :: 0 <= i < shelf - 1 ==> r[i] == h[i]
    ensures forall i :: shelf - 1 <= i < ShelfCount ==>
              r[i].online == (h[i].online && !Stale(h[i], now))
    decreases ShelfCount + 1 - shelf
  {
    if shelf > ShelfCount then h
    else
      var cleared := if Stale(h[shelf - 1], now) then h[shelf - 1 := h[shelf - 1].(online := false)] else h;
      SweepFrom(cleared, now, shelf + 1)
  }

  /** The periodic staleness sweep at time `now`. */
  function Sweep(h: Shelves, now: nat): (r: Shelves)
    ensures forall s :: ValidShelf(s) ==>
              LastHeartbeat(r, s) == LastHeartbeat(h, s)
              && (IsOnline(r, s) <==> IsOnline(h, s) && now - LastHeartbeat(h, s) <= StaleAfterMs)
  {
    SweepFrom(h, now, 1)
  }

  /** The loop run when the transport closes, for shelves `shelf` through 5. */
  function MarkOfflineFrom(h: Shelves, shelf: nat): (r: Shelves)
    requires 1 <= shelf <= ShelfCount + 1
    ensures forall i :: 0 <= i < ShelfCount ==> r[i].lastHeartbeat == h[i].lastHeartbeat
    ensures forall i :: 0 <= i < shelf - 1 ==> r[i] == h[i]
    ensures forall i :: shelf - 1 <= i < ShelfCount ==> !r[i].online
    decreases ShelfCount + 1 - shelf
  {
    if shelf > ShelfCount then h
    else MarkOfflineFrom(h[shelf - 1 := h[shelf - 1].(online := false)], shelf + 1)
  }

  /** Transport closure: every shelf goes offline, heartbeat stamps are kept. */
  function TransportClosed(h: Shelves): (r: Shelves)
    ensures forall s :: ValidShelf(s) ==>
              !IsOnline(r, s) && LastHeartbeat(r, s) == LastHeartbeat(h, s)
  {
    MarkOfflineFrom(h, 1)
  }

  /** `Object.values(shelfStatus).some(...)` scanned from index `i` onwards. */
  function SomeOnlineFrom(h: Shelves, i: nat): (r: bool)
    requires i <= ShelfCount
    ensures r <==> exists j :: i <= j < ShelfCount && h[j].online
    decreases ShelfCount - i
  {
    if i == ShelfCount then false else h[i].online || SomeOnlineFrom(h, i + 1)
  }

  /** The link-health query: is any shelf online? */
  function AnyOnline(h: Shelves): (r: bool)
    ensures r <==> exists s :: ValidShelf(s) && IsOnline(h, s)
  {
    var r := SomeOnlineFrom(h, 0);
    assert r ==> exists s :: ValidShelf(s) && IsOnline(h, s) by {
      if r {
        var j :| 0 <= j < ShelfCount && h[j].online;
        assert IsOnline(h, j + 1);
      }
    }
    r
  }

  /**
   A heartbeat from a shelf in 1..5 makes the link healthy, and a later sweep
   keeps that shelf online exactly while the heartbeat is at most 30 s old.
   */
  lemma HeartbeatMarksOnline(h: Shelves, shelf: int, now: nat)
    ensures ValidShelf(shelf) ==> AnyOnline(RecordHeartbeat(h, shelf, now))
    ensures ValidShelf(shelf) ==> forall later: nat ::
              IsOnline(Sweep(RecordHeartbeat(h, shelf, now), later), shelf) <==> later - now <= StaleAfterMs
  {
  }

  /** The sweep never sets a shelf online. */
  lemma SweepOnlyClears(h: Shelves, now: nat, shelf: int)
    ensures IsOnline(Sweep(h, now), shelf) ==> IsOnline(h, shelf)
  {
  }

  /** Right after a sweep, every online shelf has a heartbeat at most 30 s old. */
  lemma SweepLeavesOnlyFresh(h: Shelves, now: nat, shelf: int)
    ensures IsOnline(Sweep(h, now), shelf) ==> now - LastHeartbeat(h, shelf) <= StaleAfterMs
  {
  }

  /** Sweeping twice at the same time is the same as sweeping once. */
  lemma SweepIdempotent(h: Shelves, now: nat)
    ensures Sweep(Sweep(h, now), now) == Sweep(h, now)
  {
    var once := Sweep(h, now);
    var twice := Sweep(once, now);
    forall i | 0 <= i < ShelfCount
      ensures twice[i] == once[i]
    {
      assert IsOnline(once, i + 1) == IsOnline(twice, i + 1);
    }
  }

  /** After the transport closes, no shelf is online. */
  lemma ClosedMeansNoShelfOnline(h: Shelves)
    ensures !AnyOnline(TransportClosed(h))
  {
  }
}
