/**
The session pool of the Flight server (`src/flight_server.cpp`): a fixed number of arena and
transaction slots lent to requests, kept by running transactions, and taken back from idle
ones when the pool is exhausted.

A slot is an identity that outlives the handle stored in it: handles start out null and are
filled in by the engine. The clock appears only as the question whether the candidate for
eviction is old enough.
*/
module Sessions {
  import opened Store

  datatype SessionId = SessionId(client: int, txn: int) {
    predicate IsTxn() { txn != 0 }
  }

  datatype Running = Running(txn: nat, arena: nat, executing: bool)

  /** The free lists, the running transactions, and how many arena slots exist. */
  datatype Pool = Pool(freeArenas: seq<nat>, freeTxns: seq<nat>, sessions: map<SessionId, Running>, arenas: nat)

  /** What a request gets; a refusal carries an error message in the source. */
  datatype Reply<T> = Granted(value: T) | Refused

  /** What a lock holds: nothing at all when it was refused. */
  datatype Lock = TxnLock(id: SessionId, txn: nat, arena: nat) | ArenaLock(arena: nat) | NullLock

  // ---- What each call does to the pool ----

  /** Takes a session away, unless it is young or executing; an empty pool refuses. */
  function Popped(pool: Pool, pick: SessionId, aged: bool): (Pool, Reply<Running>) {
    if pick !in pool.sessions || !aged || pool.sessions[pick].executing then (pool, Refused)
    else (pool.(sessions := pool.sessions - {pick}), Granted(pool.sessions[pick].(executing := false)))
  }

  function Continued(pool: Pool, id: SessionId): (Pool, Reply<Running>) {
    if id !in pool.sessions || pool.sessions[id].executing then (pool, Refused)
    else
      var running := pool.sessions[id].(executing := true);
      (pool.(sessions := pool.sessions[id := running]), Granted(running))
  }

  function Requested(pool: Pool, id: SessionId, pick: SessionId, aged: bool): (Pool, Reply<Running>) {
    if id in pool.sessions then (pool, Refused)
    else if pool.freeTxns == [] || pool.freeArenas == [] then
      var (left, reply) := Popped(pool, pick, aged);
      (left, if reply.Granted? then Granted(reply.value.(executing := true)) else Refused)
    else
      var a, t := |pool.freeArenas| - 1, |pool.freeTxns| - 1;
      (pool.(freeArenas := pool.freeArenas[..a], freeTxns := pool.freeTxns[..t]),
       Granted(Running(pool.freeTxns[t], pool.freeArenas[a], true)))
  }

  function Held(pool: Pool, id: SessionId, running: Running): Pool {
    pool.(sessions := pool.sessions[id := running.(executing := false)])
  }

  function Released(pool: Pool, running: Running): Pool {
    pool.(freeArenas := pool.freeArenas + [running.arena], freeTxns := pool.freeTxns + [running.txn])
  }

  function Dropped(pool: Pool, id: SessionId): Pool {
    if id !in pool.sessions then pool
    else Released(pool, pool.sessions[id]).(sessions := pool.sessions - {id})
  }

  function Borrowed(pool: Pool, pick: SessionId, aged: bool): (Pool, Reply<nat>) {
    if pool.freeArenas == [] then
      var (left, reply) := Popped(pool, pick, aged);
      if reply.Refused? then (left, Refused)
      else (left.(freeTxns := left.freeTxns + [reply.value.txn]), Granted(reply.value.arena))
    else
      var a := |pool.freeArenas| - 1;
      (pool.(freeArenas := pool.freeArenas[..a]), Granted(pool.freeArenas[a]))
  }

  /** Returning a null handle adds a slot that was not there before. */
  function Returned(pool: Pool, arena: Option<nat>): Pool {
    if arena.Some? then pool.(freeArenas := pool.freeArenas + [arena.value])
    else pool.(freeArenas := pool.freeArenas + [pool.arenas], arenas := pool.arenas + 1)
  }

  function Locked(pool: Pool, id: SessionId, pick: SessionId, aged: bool): (Pool, Lock) {
    if id.IsTxn() then
      var (left, reply) := Continued(pool, id);
      (left, if reply.Granted? then TxnLock(id, reply.value.txn, reply.value.arena) else NullLock)
    else
      var (left, reply) := Borrowed(pool, pick, aged);
      (left, if reply.Granted? then ArenaLock(reply.value) else NullLock)
  }

  function Unlocked(pool: Pool, lock: Lock): Pool {
    match lock
    case TxnLock(id, txn, arena) => Held(pool, id, Running(txn, arena, true))
    case ArenaLock(arena) => Returned(pool, Some(arena))
    case NullLock => Returned(pool, None)
  }

  // ---- The pool object ----

  class SessionPool {
    var freeArenas: seq<nat>
    var freeTxns: seq<nat>
    var sessions: map<SessionId, Running>
    /** Numbers the slots of null handles; the source has no such field. */
    var arenas: nat

    ghost function State(): Pool
      reads this
    {
      Pool(freeArenas, freeTxns, sessions, arenas)
    }

    constructor (n: nat)
      ensures State() == Start(n)
    {
      freeArenas, freeTxns := seq(n, i => i), seq(n, i => i);
      sessions, arenas := map[], n;
    }

    method Pop(pick: SessionId, aged: bool) returns (reply: Reply<Running>)
      requires sessions != map[] ==> pick in sessions
      modifies this
      ensures (State(), reply) == Popped(old(State()), pick, aged)
    {
      if sessions == map[] || !aged || sessions[pick].executing {
        return Refused;
      }
      var released := sessions[pick];
      sessions := sessions - {pick};
      reply := Granted(released.(executing := false));
    }

    method ContinueTxn(id: SessionId) returns (reply: Reply<Running>)
      modifies this
      ensures (State(), reply) == Continued(old(State()), id)
    {
      if id !in sessions {
        return Refused;
      }
      if sessions[id].executing {
        return Refused;
      }
      sessions := sessions[id := sessions[id].(executing := true)];
      reply := Granted(sessions[id]);
    }

    method RequestTxn(id: SessionId, pick: SessionId, aged: bool) returns (reply: Reply<Running>)
      requires sessions != map[] ==> pick in sessions
      modifies this
      ensures (State(), reply) == Requested(old(State()), id, pick, aged)
    {
      if id in sessions {
        return Refused;
      }
      if freeTxns == [] || freeArenas == [] {
        reply := Pop(pick, aged);
        if reply.Granted? {
          reply := Granted(reply.value.(executing := true));
        }
        return;
      }
      var arena, txn := freeArenas[|freeArenas| - 1], freeTxns[|freeTxns| - 1];
      freeArenas, freeTxns := freeArenas[..|freeArenas| - 1], freeTxns[..|freeTxns| - 1];
      reply := Granted(Running(txn, arena, true));
    }

    method HoldTxn(id: SessionId, running: Running)
      modifies this
      ensures State() == Held(old(State()), id, running)
    {
      sessions := sessions[id := running.(executing := false)];
    }

    method ReleaseTxn(running: Running)
      modifies this
      ensures State() == Released(old(State()), running)
    {
      freeArenas, freeTxns := freeArenas + [running.arena], freeTxns + [running.txn];
    }

    method ReleaseTxnOf(id: SessionId)
      modifies this
      ensures State() == Dropped(old(State()), id)
    {
      if id in sessions {
        ReleaseTxn(sessions[id]);
        sessions := sessions - {id};
      }
    }

    method RequestArena(pick: SessionId, aged: bool) returns (reply: Reply<nat>)
      requires sessions != map[] ==> pick in sessions
      modifies this
      ensures (State(), reply) == Borrowed(old(State()), pick, aged)
    {
      if freeArenas == [] {
        var popped := Pop(pick, aged);
        if popped.Refused? {
          return Refused;
        }
        freeTxns := freeTxns + [popped.value.txn];
        return Granted(popped.value.arena);
      }
      reply := Granted(freeArenas[|freeArenas| - 1]);
      freeArenas := freeArenas[..|freeArenas| - 1];
    }

    method ReleaseArena(arena: Option<nat>)
      modifies this
      ensures State() == Returned(old(State()), arena)
    {
      if arena.Some? {
        freeArenas := freeArenas + [arena.value];
      } else {
        freeArenas := freeArenas + [arenas];
        arenas := arenas + 1;
      }
    }

    method AcquireLock(id: SessionId, pick: SessionId, aged: bool) returns (lock: Lock)
      requires sessions != map[] ==> pick in sessions
      modifies this
      ensures (State(), lock) == Locked(old(State()), id, pick, aged)
    {
      if id.IsTxn() {
        var reply := ContinueTxn(id);
        lock := if reply.Granted? then TxnLock(id, reply.value.txn, reply.value.arena) else NullLock;
      } else {
        var reply := RequestArena(pick, aged);
        lock := if reply.Granted? then ArenaLock(reply.value) else NullLock;
      }
    }

    /** The destructor of a lock, which runs for a refused one too. */
    method DestroyLock(lock: Lock)
      modifies this
      ensures State() == Unlocked(old(State()), lock)
    {
      match lock {
        case TxnLock(id, txn, arena) => HoldTxn(id, Running(txn, arena, true));
        case ArenaLock(arena) => ReleaseArena(Some(arena));
        case NullLock => ReleaseArena(None);
      }
    }
  }

  // ---- Runs ----

  /** The pool and the grants its holders still have to return. */
  datatype World = World(pool: Pool, begun: map<SessionId, Running>, continued: map<SessionId, Running>, lent: set<nat>)

  datatype Event =
    | Begin(id: SessionId, pick: SessionId, aged: bool)
    | Hold(id: SessionId)
    | Abandon(id: SessionId)
    | Continue(id: SessionId)
    | Acquire(id: SessionId, pick: SessionId, aged: bool)
    | Finish(id: SessionId)
    | Commit(id: SessionId)
    | GiveBack(arena: nat)

  function Start(n: nat): Pool {
    Pool(seq(n, i => i), seq(n, i => i), map[], n)
  }

  function Initial(n: nat): World {
    World(Start(n), map[], map[], {})
  }

  /** Each grant is returned once, by its holder, and nobody begins an id that is being begun. */
  predicate Allowed(w: World, e: Event) {
    match e
    case Begin(id, _, _) => id !in w.begun
    case Hold(id) => id in w.begun
    case Abandon(id) => id in w.begun
    case Continue(_) => true
    case Acquire(_, _, _) => true
    case Finish(id) => id in w.continued
    case Commit(id) => id in w.continued
    case GiveBack(arena) => arena in w.lent
  }

  /** A refused lock is destroyed on the spot. */
  predicate Refuses(w: World, e: Event) {
    e.Acquire? && Locked(w.pool, e.id, e.pick, e.aged).1.NullLock?
  }

  function Step(w: World, e: Event): World
    requires Allowed(w, e)
  {
    match e
    case Begin(id, pick, aged) =>
      var (pool, reply) := Requested(w.pool, id, pick, aged);
      if reply.Granted? then w.(pool := pool, begun := w.begun[id := reply.value]) else w.(pool := pool)
    case Hold(id) => w.(pool := Held(w.pool, id, w.begun[id]), begun := w.begun - {id})
    case Abandon(id) => w.(pool := Released(w.pool, w.begun[id]), begun := w.begun - {id})
    case Continue(id) =>
      var (pool, reply) := Continued(w.pool, id);
      if reply.Granted? then w.(pool := pool, continued := w.continued[id := reply.value]) else w.(pool := pool)
    case Acquire(id, pick, aged) =>
      var (pool, lock) := Locked(w.pool, id, pick, aged);
      (match lock
       case TxnLock(_, txn, arena) => w.(pool := pool, continued := w.continued[id := Running(txn, arena, true)])
       case ArenaLock(arena) => w.(pool := pool, lent := w.lent + {arena})
       case NullLock => w.(pool := Unlocked(pool, lock)))
    case Finish(id) =>
      w.(pool := Unlocked(w.pool, TxnLock(id, w.continued[id].txn, w.continued[id].arena)), continued := w.continued - {id})
    case Commit(id) => w.(pool := Dropped(w.pool, id), continued := w.continued - {id})
    case GiveBack(arena) => w.(pool := Unlocked(w.pool, ArenaLock(arena)), lent := w.lent - {arena})
  }

  ghost predicate Runs(w: World, events: seq<Event>)
    decreases events
  {
    events == [] || (Allowed(w, events[0]) && Runs(Step(w, events[0]), events[1..]))
  }

  ghost function After(w: World, events: seq<Event>): World
    requires Runs(w, events)
    decreases events
  {
    if events == [] then w else After(Step(w, events[0]), events[1..])
  }

  ghost function Refusals(w: World, events: seq<Event>): nat
    requires Runs(w, events)
    decreases events
  {
    if events == [] then 0
    else (if Refuses(w, events[0]) then 1 else 0) + Refusals(Step(w, events[0]), events[1..])
  }

  // ---- Where a slot is ----

  datatype Kind = Arena | Txn

  datatype Location = Free(index: nat) | InSession(id: SessionId) | InBegun(id: SessionId) | InLent(arena: nat)

  function FreeOf(w: World, kind: Kind): seq<nat> {
    if kind == Arena then w.pool.freeArenas else w.pool.freeTxns
  }

  function SlotOf(running: Running, kind: Kind): nat {
    if kind == Arena then running.arena else running.txn
  }

  function SlotAt(w: World, kind: Kind, l: Location): Option<nat> {
    match l
    case Free(i) => if i < |FreeOf(w, kind)| then Some(FreeOf(w, kind)[i]) else None
    case InSession(id) => if id in w.pool.sessions then Some(SlotOf(w.pool.sessions[id], kind)) else None
    case InBegun(id) => if id in w.begun then Some(SlotOf(w.begun[id], kind)) else None
    case InLent(arena) => if kind == Arena && arena in w.lent then Some(arena) else None
  }

  ghost predicate Somewhere(w: World, kind: Kind, slot: nat) {
    exists l :: SlotAt(w, kind, l) == Some(slot)
  }

  /** Every slot below the total is at exactly one location, and no location has another one. */
  ghost predicate Placed(w: World, kind: Kind, total: nat) {
    && (forall l, m :: SlotAt(w, kind, l).Some? && SlotAt(w, kind, l) == SlotAt(w, kind, m) ==> l == m)
    && (forall l :: SlotAt(w, kind, l).Some? ==> SlotAt(w, kind, l).value < total)
    && (forall slot: nat :: slot < total ==> Somewhere(w, kind, slot))
  }

  /** The holders' copies and the executing sessions are the same thing. */
  ghost predicate Consistent(w: World) {
    && w.continued.Keys <= w.pool.sessions.Keys
    && (forall id :: id in w.pool.sessions ==>
      (w.pool.sessions[id].executing <==> id in w.continued))
    && (forall id :: id in w.continued ==> w.continued[id] == w.pool.sessions[id])
    && w.begun.Keys !! w.pool.sessions.Keys
  }

  /** Free transactions outnumber free arenas by the arena-only locks, less the minted slots. */
  ghost predicate Counted(w: World, n: nat) {
    && |w.pool.freeArenas| + |w.pool.sessions| + |w.begun| + |w.lent| == w.pool.arenas
    && |w.pool.freeTxns| + |w.pool.sessions| + |w.begun| == n
  }

  ghost predicate Invariant(w: World, n: nat) {
    && Consistent(w) && Counted(w, n)
    && Placed(w, Arena, w.pool.arenas) && Placed(w, Txn, n)
  }

  // ---- Every step keeps every slot in its one place ----

  ghost predicate SameBut(w: World, v: World, kind: Kind, from: Location, to: Location) {
    forall l :: l != from && l != to ==> SlotAt(v, kind, l) == SlotAt(w, kind, l)
  }

  lemma {:induction false} SlotMoves(w: World, v: World, kind: Kind, total: nat, from: Location, to: Location)
    requires Placed(w, kind, total) && SameBut(w, v, kind, from, to)
    requires SlotAt(w, kind, from).Some? && SlotAt(w, kind, to).None?
    requires SlotAt(v, kind, from).None? && SlotAt(v, kind, to) == SlotAt(w, kind, from)
    ensures Placed(v, kind, total)
  {
    hide SlotAt;
    forall slot: nat | slot < total ensures Somewhere(v, kind, slot) {
      assert Somewhere(w, kind, slot);
      var l :| SlotAt(w, kind, l) == Some(slot);
      var m := if l == from then to else l;
      assert SlotAt(v, kind, m) == Some(slot);
    }
  }

  lemma {:induction false} SlotsStay(w: World, v: World, kind: Kind, total: nat)
    requires Placed(w, kind, total)
    requires AllSame(w, v, kind)
    ensures Placed(v, kind, total)
  {
    hide SlotAt;
    forall slot: nat | slot < total ensures Somewhere(v, kind, slot) {
      assert Somewhere(w, kind, slot);
      var l :| SlotAt(w, kind, l) == Some(slot);
      assert SlotAt(v, kind, l) == Some(slot);
    }
  }

  lemma {:induction false} SlotAppears(w: World, v: World, kind: Kind, total: nat, to: Location)
    requires Placed(w, kind, total) && SameBut(w, v, kind, to, to)
    requires SlotAt(w, kind, to).None? && SlotAt(v, kind, to) == Some(total)
    ensures Placed(v, kind, total + 1)
  {
    hide SlotAt;
    forall slot: nat | slot < total + 1 ensures Somewhere(v, kind, slot) {
      if slot < total {
        assert Somewhere(w, kind, slot);
        var l :| SlotAt(w, kind, l) == Some(slot);
        assert SlotAt(v, kind, l) == Some(slot);
      }
    }
  }

  lemma {:induction false} SizeWithout<K, V>(m: map<K, V>, k: K)
    requires k in m
    ensures |m - {k}| == |m| - 1
  {
    assert (m - {k}).Keys == m.Keys - {k};
    assert |(m - {k}).Keys| == |m - {k}|;
    assert |m.Keys| == |m|;
  }

  lemma {:induction false} LockKeepsConsistent(w: World, e: Event)
    requires Consistent(w) && Allowed(w, e) && e.Acquire?
    ensures Consistent(Step(w, e))
  {
    if e.id.IsTxn() {
      TxnLockKeepsConsistent(w, e);
    } else {
      ArenaLockKeepsConsistent(w, e);
    }
  }

  lemma {:induction false} TxnLockKeepsConsistent(w: World, e: Event)
    requires Consistent(w) && Allowed(w, e) && e.Acquire? && e.id.IsTxn()
    ensures Consistent(Step(w, e))
  {
    hide Borrowed, Popped;
  }

  lemma {:induction false} ArenaLockKeepsConsistent(w: World, e: Event)
    requires Consistent(w) && Allowed(w, e) && e.Acquire? && !e.id.IsTxn()
    ensures Consistent(Step(w, e))
  {
    hide Borrowed, Continued, Consistent;
    BorrowedSessions(w.pool, e.pick, e.aged);
    ConsistentWithout(w, Step(w, e), e.pick);
  }

  lemma {:induction false} ConsistentWithout(w: World, v: World, pick: SessionId)
    requires Consistent(w) && v.begun == w.begun && v.continued == w.continued
    requires v.pool.sessions == w.pool.sessions
      || (pick in w.pool.sessions && !w.pool.sessions[pick].executing && v.pool.sessions == w.pool.sessions - {pick})
    ensures Consistent(v)
  {
  }

  /** A borrowed arena costs no session, or one that is not executing. */
  lemma {:induction false} BorrowedSessions(pool: Pool, pick: SessionId, aged: bool)
    ensures var left := Borrowed(pool, pick, aged).0;
      || left.sessions == pool.sessions
      || (pick in pool.sessions && !pool.sessions[pick].executing && left.sessions == pool.sessions - {pick})
  {
  }

  lemma {:induction false} StepKeepsConsistent(w: World, e: Event)
    requires Consistent(w) && Allowed(w, e)
    ensures Consistent(Step(w, e))
  {
    if e.Acquire? {
      LockKeepsConsistent(w, e);
    }
  }

  ghost predicate SizesChange(pool: Pool, left: Pool, arenas: int, txns: int) {
    && |left.freeArenas| + |left.sessions| == |pool.freeArenas| + |pool.sessions| + arenas
    && |left.freeTxns| + |left.sessions| == |pool.freeTxns| + |pool.sessions| + txns
    && left.arenas == pool.arenas
  }

  lemma {:induction false} PoppedSizes(pool: Pool, pick: SessionId, aged: bool)
    ensures var (left, reply) := Popped(pool, pick, aged);
      if reply.Granted? then left.freeArenas == pool.freeArenas && left.freeTxns == pool.freeTxns
        && |left.sessions| == |pool.sessions| - 1 && left.arenas == pool.arenas
      else left == pool
  {
    if pick in pool.sessions {
      SizeWithout(pool.sessions, pick);
    }
  }

  lemma {:induction false} RequestedSizes(pool: Pool, id: SessionId, pick: SessionId, aged: bool)
    ensures var (left, reply) := Requested(pool, id, pick, aged);
      if reply.Granted? then SizesChange(pool, left, -1, -1)
      else left == pool
  {
    hide Popped;
    PoppedSizes(pool, pick, aged);
  }

  lemma {:induction false} BorrowedSizes(pool: Pool, pick: SessionId, aged: bool)
    ensures var (left, reply) := Borrowed(pool, pick, aged);
      if reply.Granted? then SizesChange(pool, left, -1, 0)
      else left == pool
  {
    PoppedSizes(pool, pick, aged);
  }

  lemma {:induction false} LockedSizes(pool: Pool, id: SessionId, pick: SessionId, aged: bool)
    ensures var (left, lock) := Locked(pool, id, pick, aged);
      if lock.NullLock? then left == pool else SizesChange(pool, left, if lock.ArenaLock? then -1 else 0, 0)
  {
    hide Borrowed;
    BorrowedSizes(pool, pick, aged);
  }

  lemma {:induction false} LockKeepsCounts(w: World, e: Event, n: nat)
    requires Counted(w, n) && Placed(w, Arena, w.pool.arenas) && Allowed(w, e) && e.Acquire?
    ensures Counted(Step(w, e), n)
  {
    hide Placed, Locked;
    LockedSizes(w.pool, e.id, e.pick, e.aged);
    LentIsNew(w, e);
  }

  lemma {:induction false} BeginKeepsCounts(w: World, e: Event, n: nat)
    requires Counted(w, n) && Allowed(w, e) && e.Begin?
    ensures Counted(Step(w, e), n)
  {
    hide Requested;
    RequestedSizes(w.pool, e.id, e.pick, e.aged);
  }

  lemma {:induction false} GrantKeepsCounts(w: World, e: Event, n: nat)
    requires Consistent(w) && Counted(w, n) && Allowed(w, e) && (e.Hold? || e.Abandon?)
    ensures Counted(Step(w, e), n)
  {
    SizeWithout(w.begun, e.id);
  }

  lemma {:induction false} StepKeepsCounts(w: World, e: Event, n: nat)
    requires Consistent(w) && Counted(w, n) && Placed(w, Arena, w.pool.arenas) && Allowed(w, e)
    ensures Counted(Step(w, e), n)
  {
    hide Placed, Requested, Borrowed, Popped;
    if e.Acquire? {
      LockKeepsCounts(w, e, n);
    } else if e.Begin? {
      BeginKeepsCounts(w, e, n);
    } else if e.Hold? || e.Abandon? {
      GrantKeepsCounts(w, e, n);
    } else if e.Commit? {
      SizeWithout(w.pool.sessions, e.id);
    }
  }

  /** A lent arena was free or in a session, hence not lent already. */
  lemma {:induction false} LentIsNew(w: World, e: Event)
    requires e.Acquire? && Placed(w, Arena, w.pool.arenas)
    ensures var lock := Locked(w.pool, e.id, e.pick, e.aged).1; lock.ArenaLock? ==> lock.arena !in w.lent
  {
    var lock := Locked(w.pool, e.id, e.pick, e.aged).1;
    if lock.ArenaLock? {
      var from := if w.pool.freeArenas == [] then InSession(e.pick) else Free(|w.pool.freeArenas| - 1);
      assert SlotAt(w, Arena, from) == Some(lock.arena) && from != InLent(lock.arena);
      assert SlotAt(w, Arena, InLent(lock.arena)) != Some(lock.arena);
    }
  }

  /** Where the slot a step moves comes from, and where it goes. */
  function Source(w: World, e: Event, kind: Kind): Location
    requires Allowed(w, e)
  {
    match e
    case Begin(_, pick, _) =>
      if w.pool.freeTxns == [] || w.pool.freeArenas == [] then InSession(pick) else Free(|FreeOf(w, kind)| - 1)
    case Hold(id) => InBegun(id)
    case Abandon(id) => InBegun(id)
    case Acquire(_, pick, _) => if w.pool.freeArenas == [] then InSession(pick) else Free(|w.pool.freeArenas| - 1)
    case Commit(id) => InSession(id)
    case GiveBack(arena) => InLent(arena)
    case Continue(id) => InSession(id)
    case Finish(id) => InSession(id)
  }

  function Target(w: World, e: Event, kind: Kind): Location
    requires Allowed(w, e)
  {
    match e
    case Begin(id, _, _) => InBegun(id)
    case Hold(id) => InSession(id)
    case Acquire(_, _, _) =>
      var lock := Locked(w.pool, e.id, e.pick, e.aged).1;
      if kind == Arena && lock.ArenaLock? then InLent(lock.arena) else Free(|FreeOf(w, kind)|)
    case Continue(id) => InSession(id)
    case Finish(id) => InSession(id)
    case Abandon(_) => Free(|FreeOf(w, kind)|)
    case Commit(_) => Free(|FreeOf(w, kind)|)
    case GiveBack(_) => Free(|FreeOf(w, kind)|)
  }

  /** Whether a step moves a slot of the kind at all. */
  predicate Moves(w: World, e: Event, kind: Kind)
    requires Allowed(w, e)
  {
    match e
    case Begin(id, pick, aged) => Requested(w.pool, id, pick, aged).1.Granted?
    case Hold(_) => true
    case Abandon(_) => true
    case Acquire(id, pick, aged) =>
      Locked(w.pool, id, pick, aged).1.ArenaLock? && (kind == Arena || w.pool.freeArenas == [])
    case Commit(_) => true
    case GiveBack(_) => kind == Arena
    case Continue(_) => false
    case Finish(_) => false
  }

  ghost predicate MovesSlot(w: World, e: Event, kind: Kind)
    requires Allowed(w, e)
  {
    var from, to, v := Source(w, e, kind), Target(w, e, kind), Step(w, e);
    && SlotAt(w, kind, from).Some? && SlotAt(w, kind, to).None?
    && SlotAt(v, kind, from).None? && SlotAt(v, kind, to) == SlotAt(w, kind, from)
    && SameBut(w, v, kind, from, to)
    && v.pool.arenas == w.pool.arenas
  }

  lemma {:induction false} LockMoves(w: World, e: Event, kind: Kind)
    requires e.Acquire? && Placed(w, Arena, w.pool.arenas) && Moves(w, e, kind)
    ensures MovesSlot(w, e, kind)
  {
    hide Placed;
    LentIsNew(w, e);
  }

  lemma {:induction false} BeginMoves(w: World, e: Event, kind: Kind)
    requires e.Begin? && Allowed(w, e) && Moves(w, e, kind)
    ensures MovesSlot(w, e, kind)
  {
  }

  lemma {:induction false} StepMoves(w: World, e: Event, kind: Kind)
    requires Consistent(w) && Placed(w, Arena, w.pool.arenas) && Allowed(w, e) && Moves(w, e, kind)
    ensures MovesSlot(w, e, kind)
  {
    hide Placed, Locked, Requested;
    if e.Acquire? {
      LockMoves(w, e, kind);
    } else if e.Begin? {
      BeginMoves(w, e, kind);
    }
  }

  ghost predicate AllSame(w: World, v: World, kind: Kind) {
    forall l :: SlotAt(v, kind, l) == SlotAt(w, kind, l)
  }

  lemma {:induction false} LockLeaves(w: World, e: Event, kind: Kind)
    requires Allowed(w, e) && e.Acquire? && !Moves(w, e, kind) && !(kind == Arena && Refuses(w, e))
    ensures AllSame(w, Step(w, e), kind)
    ensures !Refuses(w, e) ==> Step(w, e).pool.arenas == w.pool.arenas
  {
  }

  lemma {:induction false} StepLeaves(w: World, e: Event, kind: Kind)
    requires Consistent(w) && Allowed(w, e) && !Moves(w, e, kind) && !(kind == Arena && Refuses(w, e))
    ensures AllSame(w, Step(w, e), kind)
    ensures !Refuses(w, e) ==> Step(w, e).pool.arenas == w.pool.arenas
  {
    hide Locked;
    if e.Acquire? {
      LockLeaves(w, e, kind);
    }
  }

  lemma {:induction false} RefusalMints(w: World, e: Event)
    requires Consistent(w) && Allowed(w, e) && Refuses(w, e)
    ensures var to, v := Free(|w.pool.freeArenas|), Step(w, e);
      && SlotAt(w, Arena, to).None? && SlotAt(v, Arena, to) == Some(w.pool.arenas)
      && SameBut(w, v, Arena, to, to)
      && v.pool.arenas == w.pool.arenas + 1
  {
  }

  /** No step loses, doubles or shares a slot; only a refused lock makes one. */
  lemma {:induction false} StepKeepsInvariant(w: World, e: Event, n: nat)
    requires Invariant(w, n) && Allowed(w, e)
    ensures Invariant(Step(w, e), n)
    ensures Step(w, e).pool.arenas == w.pool.arenas + if Refuses(w, e) then 1 else 0
  {
    hide Placed, Consistent, Counted, Step, SlotAt, SameBut, AllSame, Source, Target, Moves, Refuses;
    StepKeepsConsistent(w, e);
    StepKeepsCounts(w, e, n);
    if Moves(w, e, Txn) {
      StepMoves(w, e, Txn);
      SlotMoves(w, Step(w, e), Txn, n, Source(w, e, Txn), Target(w, e, Txn));
    } else {
      StepLeaves(w, e, Txn);
      SlotsStay(w, Step(w, e), Txn, n);
    }
    if Refuses(w, e) {
      RefusalMints(w, e);
      SlotAppears(w, Step(w, e), Arena, w.pool.arenas, Free(|w.pool.freeArenas|));
    } else if Moves(w, e, Arena) {
      StepMoves(w, e, Arena);
      SlotMoves(w, Step(w, e), Arena, w.pool.arenas, Source(w, e, Arena), Target(w, e, Arena));
    } else {
      StepLeaves(w, e, Arena);
      SlotsStay(w, Step(w, e), Arena, w.pool.arenas);
    }
  }

  lemma {:induction false} InitialHolds(n: nat)
    ensures Invariant(Initial(n), n)
  {
    var w := Initial(n);
    forall kind: Kind, slot: nat | slot < n ensures Somewhere(w, kind, slot) {
      assert SlotAt(w, kind, Free(slot)) == Some(slot);
    }
  }

  /**
  Over every disciplined run each arena and transaction slot is in exactly one place. The
  arena slots are the initial ones and one for each refused lock, so that the free lists
  differ by the outstanding arena-only locks exactly when no lock was refused.
  */
  lemma {:induction false} RunsKeepSlots(n: nat, events: seq<Event>)
    requires Runs(Initial(n), events)
    ensures var w := After(Initial(n), events);
      && Invariant(w, n)
      && w.pool.arenas == n + Refusals(Initial(n), events)
      && |w.pool.freeTxns| - |w.pool.freeArenas| == |w.lent| - Refusals(Initial(n), events)
  {
    InitialHolds(n);
    RunKeepsInvariant(Initial(n), events, n);
  }

  lemma {:induction false} RunKeepsInvariant(w: World, events: seq<Event>, n: nat)
    requires Invariant(w, n) && Runs(w, events)
    ensures Invariant(After(w, events), n)
    ensures After(w, events).pool.arenas == w.pool.arenas + Refusals(w, events)
    decreases events
  {
    hide Invariant, Step, Refuses, Allowed;
    if events != [] {
      StepKeepsInvariant(w, events[0], n);
      RunKeepsInvariant(Step(w, events[0]), events[1..], n);
    }
  }

  /**
  Whatever candidate is picked for eviction, a grant survives every step but its own return:
  an executing session keeps its slots, and so do begun transactions and lent arenas.
  */
  lemma {:induction false} GrantsSurvive(w: World, e: Event, id: SessionId)
    requires Consistent(w) && Allowed(w, e)
    ensures id in w.continued && e != Finish(id) && e != Commit(id) ==>
      id in Step(w, e).continued && Step(w, e).continued[id] == w.continued[id]
    ensures id in w.begun && e != Hold(id) && e != Abandon(id) ==>
      id in Step(w, e).begun && Step(w, e).begun[id] == w.begun[id]
    ensures forall arena :: arena in w.lent && e != GiveBack(arena) ==> arena in Step(w, e).lent
  {
  }

  /** Nobody returns the grant of an id in these events. */
  predicate KeptBy(events: seq<Event>, id: SessionId) {
    Finish(id) !in events && Commit(id) !in events
  }

  /** An executing session is never evicted: it keeps its slots until its holder returns them. */
  lemma {:induction false} ExecutingIsNeverEvicted(w: World, events: seq<Event>, id: SessionId)
    requires Consistent(w) && Runs(w, events) && id in w.continued && KeptBy(events, id)
    ensures var v := After(w, events);
      id in v.continued && id in v.pool.sessions && v.pool.sessions[id] == v.continued[id] == w.continued[id]
    decreases events
  {
    hide Consistent, Step, Allowed;
    if events == [] {
      HolderHasSession(w, id);
    } else {
      assert events[0] in events;
      GrantsSurvive(w, events[0], id);
      StepKeepsConsistent(w, events[0]);
      ExecutingIsNeverEvicted(Step(w, events[0]), events[1..], id);
    }
  }

  lemma {:induction false} HolderHasSession(w: World, id: SessionId)
    requires Consistent(w) && id in w.continued
    ensures id in w.pool.sessions && w.pool.sessions[id] == w.continued[id]
  {
  }

  // ---- Who is granted what ----

  /** The id is filed in the pool and nobody holds it. */
  predicate Idle(w: World, id: SessionId) {
    id in w.pool.sessions && id !in w.continued
  }

  /** No holder has a slot of these. */
  ghost predicate HeldByNone(w: World, txn: Option<nat>, arena: nat) {
    && (forall id :: id in w.continued ==> Some(w.continued[id].txn) != txn && w.continued[id].arena != arena)
    && (forall id :: id in w.begun ==> Some(w.begun[id].txn) != txn && w.begun[id].arena != arena)
    && arena !in w.lent
  }

  /**
  After every disciplined run a transaction is continued, or locked, exactly when it is filed and
  nobody holds it. A new one is granted exactly when its id is not filed and there are free slots of
  both kinds, or an old candidate that nobody holds; a lone arena when one is free, or for such a
  candidate.
  */
  lemma {:induction false} GrantedExactly(n: nat, events: seq<Event>, id: SessionId, pick: SessionId, aged: bool)
    requires Runs(Initial(n), events)
    ensures var w := After(Initial(n), events);
      && (Continued(w.pool, id).1.Granted? <==> Idle(w, id))
      && (Requested(w.pool, id, pick, aged).1.Granted? <==>
            id !in w.pool.sessions && ((w.pool.freeTxns != [] && w.pool.freeArenas != []) || (aged && Idle(w, pick))))
      && Locked(w.pool, id, pick, aged).1.NullLock? == (
           if id.txn != 0 then !Idle(w, id) else w.pool.freeArenas == [] && !(aged && Idle(w, pick)))
  {
    RunsKeepSlots(n, events);
  }

  /** What is granted nobody holds: no transaction and no arena is ever in two hands. */
  lemma {:induction false} GrantsAreExclusive(n: nat, events: seq<Event>, id: SessionId, pick: SessionId, aged: bool)
    requires Runs(Initial(n), events)
    ensures var w := After(Initial(n), events);
      && (var reply := Continued(w.pool, id).1;
          reply.Granted? ==> HeldByNone(w, Some(reply.value.txn), reply.value.arena))
      && (var reply := Requested(w.pool, id, pick, aged).1;
          reply.Granted? ==> HeldByNone(w, Some(reply.value.txn), reply.value.arena))
      && (var reply := Borrowed(w.pool, pick, aged).1; reply.Granted? ==> HeldByNone(w, None, reply.value))
  {
    RunsKeepSlots(n, events);
    var w := After(Initial(n), events);
    hide Runs, After, Refusals, Initial, Invariant, HeldByNone, Continued, Requested, Borrowed;
    ContinuedIsExclusive(w, n, id);
    RequestedIsExclusive(w, n, id, pick, aged);
    BorrowedIsExclusive(w, n, pick, aged);
  }

  lemma {:induction false} ContinuedIsExclusive(w: World, n: nat, id: SessionId)
    requires Invariant(w, n)
    ensures var reply := Continued(w.pool, id).1;
      reply.Granted? ==> HeldByNone(w, Some(reply.value.txn), reply.value.arena)
  {
    hide HeldByNone, Placed, Counted;
    if Idle(w, id) {
      InPoolIsHeldByNone(w, n, InSession(id), InSession(id));
    }
  }

  lemma {:induction false} PoppedIsExclusive(w: World, n: nat, pick: SessionId, aged: bool)
    requires Invariant(w, n)
    ensures var reply := Popped(w.pool, pick, aged).1;
      reply.Granted? ==> HeldByNone(w, Some(reply.value.txn), reply.value.arena)
  {
    hide HeldByNone, Placed, Counted;
    if Idle(w, pick) {
      InPoolIsHeldByNone(w, n, InSession(pick), InSession(pick));
    }
  }

  lemma {:induction false} RequestedIsExclusive(w: World, n: nat, id: SessionId, pick: SessionId, aged: bool)
    requires Invariant(w, n)
    ensures var reply := Requested(w.pool, id, pick, aged).1;
      reply.Granted? ==> HeldByNone(w, Some(reply.value.txn), reply.value.arena)
  {
    hide HeldByNone, Popped, Invariant;
    PoppedIsExclusive(w, n, pick, aged);
    var a, t := |w.pool.freeArenas| - 1, |w.pool.freeTxns| - 1;
    if a >= 0 && t >= 0 {
      InPoolIsHeldByNone(w, n, Free(t), Free(a));
    }
  }

  lemma {:induction false} BorrowedIsExclusive(w: World, n: nat, pick: SessionId, aged: bool)
    requires Invariant(w, n)
    ensures var reply := Borrowed(w.pool, pick, aged).1; reply.Granted? ==> HeldByNone(w, None, reply.value)
  {
    hide Popped, Invariant;
    PoppedIsExclusive(w, n, pick, aged);
    if w.pool.freeArenas != [] {
      FreeIsHeldByNone(w, n, |w.pool.freeArenas| - 1);
    }
  }

  predicate InPool(w: World, l: Location) {
    match l
    case Free(_) => true
    case InSession(id) => Idle(w, id)
    case _ => false
  }

  lemma {:induction false} FreeIsHeldByNone(w: World, n: nat, a: nat)
    requires Invariant(w, n) && a < |w.pool.freeArenas|
    ensures HeldByNone(w, None, w.pool.freeArenas[a])
  {
    var slot := w.pool.freeArenas[a];
    assert SlotAt(w, Arena, Free(a)) == Some(slot);
    forall other | other in w.continued ensures w.continued[other].arena != slot {
      HolderHasSession(w, other);
      assert SlotAt(w, Arena, InSession(other)) == Some(w.continued[other].arena);
    }
    forall other | other in w.begun ensures w.begun[other].arena != slot {
      assert SlotAt(w, Arena, InBegun(other)) == Some(w.begun[other].arena);
    }
    assert slot in w.lent ==> SlotAt(w, Arena, InLent(slot)) == Some(slot);
  }

  /** A slot that is free, or filed under an idle id, is in nobody's hands. */
  lemma {:induction false} InPoolIsHeldByNone(w: World, n: nat, t: Location, a: Location)
    requires Invariant(w, n) && InPool(w, t) && InPool(w, a)
    requires SlotAt(w, Txn, t).Some? && SlotAt(w, Arena, a).Some?
    ensures HeldByNone(w, SlotAt(w, Txn, t), SlotAt(w, Arena, a).value)
  {
    var txn, arena := SlotAt(w, Txn, t), SlotAt(w, Arena, a).value;
    forall other | other in w.continued
      ensures Some(w.continued[other].txn) != txn && w.continued[other].arena != arena
    {
      HolderHasSession(w, other);
      assert SlotAt(w, Txn, InSession(other)) == Some(w.continued[other].txn);
      assert SlotAt(w, Arena, InSession(other)) == Some(w.continued[other].arena);
    }
    forall other | other in w.begun
      ensures Some(w.begun[other].txn) != txn && w.begun[other].arena != arena
    {
      assert SlotAt(w, Txn, InBegun(other)) == Some(w.begun[other].txn);
      assert SlotAt(w, Arena, InBegun(other)) == Some(w.begun[other].arena);
    }
    assert arena in w.lent ==> SlotAt(w, Arena, InLent(arena)) == Some(arena);
  }

  /** With every grant returned and no lock refused, the pool is whole again. */
  lemma {:induction false} AllReturned(n: nat, events: seq<Event>)
    requires Runs(Initial(n), events)
    requires var w := After(Initial(n), events); w.begun == map[] && w.continued == map[] && w.lent == {}
    ensures var pool := After(Initial(n), events).pool;
      && (|pool.freeTxns| == |pool.freeArenas| <==> Refusals(Initial(n), events) == 0)
      && |pool.freeTxns| + |pool.sessions| == n
      && (forall id :: id in pool.sessions ==> !pool.sessions[id].executing)
  {
    RunsKeepSlots(n, events);
  }

  /** A pool of no slots refuses a lock, and has one arena once the lock is destroyed. */
  lemma {:induction false} RefusedLockMints(id: SessionId)
    requires !id.IsTxn()
    ensures var events := [Acquire(id, id, false)];
      && Runs(Initial(0), events) && Refusals(Initial(0), events) == 1
      && After(Initial(0), events).pool == Pool([0], [], map[], 1)
  {
    var events := [Acquire(id, id, false)];
    assert events[1..] == [];
    assert [] + [0] == [0];
  }
}
