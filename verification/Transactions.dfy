/**
Optimistic transactions of the in-memory engine (`src/engine_umem.cpp`).

A transaction remembers the generation of every key it watches, keeps its writes to itself,
and commits only if no watched key was updated since it was watched. `ReadStep`,
`WriteStep` and `CommitStep` are the values the methods of `Engine` and `Transaction`
compute; `Run` interleaves them arbitrarily.
*/
module Transactions {
  import opened Store

  /** What a transaction did, and what it was answered. */
  datatype Event =
    | Read(place: Place, watched: bool, result: Option<Bytes>)
    | Write(place: Place, watched: bool, content: Option<Bytes>)

  type Log = seq<Event>

  datatype Txn = Txn(watches: map<Place, nat>, changes: map<Place, Option<Bytes>>, log: Log)

  /** The shared part: the pairs, the generation of each, and the logs committed so far. */
  datatype Core = Core(pairs: Pairs, generations: map<Place, nat>, clock: nat, history: seq<Log>)

  const FRESH := Txn(map[], map[], [])

  function Generation(core: Core, place: Place): nat {
    if place in core.generations then core.generations[place] else 0
  }

  /** A key watched again keeps the generation of its first watch. */
  function Watch(core: Core, txn: Txn, place: Place): Txn {
    if place in txn.watches then txn else txn.(watches := txn.watches[place := Generation(core, place)])
  }

  function Answer(core: Core, txn: Txn, place: Place): Option<Bytes> {
    if place in txn.changes then txn.changes[place] else Find(core.pairs, place)
  }

  function ReadStep(core: Core, txn: Txn, place: Place, watched: bool): Txn {
    var txn' := if watched then Watch(core, txn, place) else txn;
    txn'.(log := txn.log + [Read(place, watched, Answer(core, txn, place))])
  }

  function WriteStep(core: Core, txn: Txn, place: Place, watched: bool, content: Option<Bytes>): Txn {
    var txn' := if watched then Watch(core, txn, place) else txn;
    txn'.(changes := txn.changes[place := content], log := txn.log + [Write(place, watched, content)])
  }

  predicate CanCommit(core: Core, txn: Txn) {
    forall place :: place in txn.watches ==> txn.watches[place] == Generation(core, place)
  }

  function Overlay(pairs: Pairs, changes: map<Place, Option<Bytes>>): Pairs {
    map place | place in pairs.Keys + changes.Keys && (place in changes ==> changes[place].Some?) ::
      if place in changes then changes[place].value else pairs[place]
  }

  function CommitStep(core: Core, txn: Txn): Core {
    if !CanCommit(core, txn) then core else
    Core(Overlay(core.pairs, txn.changes),
         map place | place in core.generations.Keys + txn.changes.Keys ::
           if place in txn.changes then core.clock + 1 else core.generations[place],
         core.clock + 1,
         core.history + [txn.log])
  }

  // ---- The engine's own objects ----

  class Engine {
    var pairs: Pairs
    var generations: map<Place, nat>
    var clock: nat
    ghost var history: seq<Log>

    ghost function View(): Core
      reads this
    {
      Core(pairs, generations, clock, history)
    }

    constructor ()
      ensures View() == Core(map[], map[], 0, [])
    {
      pairs, generations, clock, history := map[], map[], 0, [];
    }
  }

  class Transaction {
    const engine: Engine
    var watches: map<Place, nat>
    var changes: map<Place, Option<Bytes>>
    ghost var log: Log

    ghost function View(): Txn
      reads this
    {
      Txn(watches, changes, log)
    }

    constructor (engine: Engine)
      ensures View() == FRESH && this.engine == engine
    {
      this.engine := engine;
      watches, changes, log := map[], map[], [];
    }

    /** `ukv_transaction_init` on a handle that may already have been used. */
    method Reset()
      modifies this
      ensures View() == FRESH
    {
      watches, changes, log := map[], map[], [];
    }

    method WatchKey(place: Place)
      modifies this`watches
      ensures View() == Watch(engine.View(), old(View()), place)
    {
      if place !in watches {
        var generation := if place in engine.generations then engine.generations[place] else 0;
        watches := watches[place := generation];
      }
    }

    method FindAndWatch(place: Place, dontWatch: bool) returns (found: Option<Bytes>)
      modifies this
      ensures found == Answer(engine.View(), old(View()), place)
      ensures View() == ReadStep(engine.View(), old(View()), place, !dontWatch)
    {
      if !dontWatch {
        WatchKey(place);
      }
      if place in changes {
        found := changes[place];
      } else {
        found := Find(engine.pairs, place);
      }
      log := log + [Read(place, !dontWatch, found)];
    }

    /** The transactional branch of `ukv_write`. */
    method WriteBatch(places: seq<Place>, contents: seq<Option<Bytes>>, dontWatch: bool)
      requires |places| == |contents|
      modifies this
      ensures View() == WriteSteps(engine.View(), old(View()), places, contents, !dontWatch)
    {
      for i := 0 to |places|
        invariant View() == WriteSteps(engine.View(), old(View()), places[..i], contents[..i], !dontWatch)
      {
        if !dontWatch {
          WatchKey(places[i]);
        }
        changes := changes[places[i] := contents[i]];
        log := log + [Write(places[i], !dontWatch, contents[i])];
        assert places[..i + 1][..i] == places[..i] && contents[..i + 1][..i] == contents[..i];
      }
      assert places[..|places|] == places && contents[..|places|] == contents;
    }

    /** The watched read of a modality: it clears the caller's option to leave keys unwatched. */
    method ReadBatch(places: seq<Place>) returns (found: seq<Option<Bytes>>)
      modifies this
      ensures View() == ReadSteps(engine.View(), old(View()), places)
      ensures found == AnswersOf(engine.View(), old(View()), places)
    {
      found := [];
      ghost var core, start := engine.View(), View();
      for i := 0 to |places|
        invariant View() == ReadSteps(core, start, places[..i])
        invariant found == AnswersOf(core, start, places[..i])
      {
        var answer := FindAndWatch(places[i], false);
        ReadsKeepChanges(core, start, places[..i]);
        found := found + [answer];
        assert places[..i + 1][..i] == places[..i];
      }
      assert places[..|places|] == places;
    }

    /** How a modality updates blobs inside a transaction; its writes keep the caller's option. */
    method ReadModifyWrite(update: Update)
      modifies this
      ensures View() == UpdateSteps(engine.View(), old(View()), update)
      ensures old(log) <= log && IsUpdate(log[|old(log)|..], update)
    {
      ghost var start := View();
      var found := ReadBatch(update.places);
      var contents := update.Contents(found);
      WriteBatch(update.places, contents, update.dontWatch);
      UpdateLog(engine.View(), start, update);
    }

    /** `ukv_transaction_commit`: stage and commit as one step. */
    method Commit() returns (ok: bool)
      modifies engine
      ensures ok == CanCommit(old(engine.View()), old(View()))
      ensures engine.View() == CommitStep(old(engine.View()), old(View()))
    {
      ok := forall place :: place in watches ==>
        watches[place] == (if place in engine.generations then engine.generations[place] else 0);
      if ok {
        engine.pairs := Overlay(engine.pairs, changes);
        engine.generations := map place | place in engine.generations.Keys + changes.Keys ::
          if place in changes then engine.clock + 1 else engine.generations[place];
        engine.clock := engine.clock + 1;
        engine.history := engine.history + [log];
      }
    }
  }

  /** Watched reads, one after another. */
  function ReadSteps(core: Core, txn: Txn, places: seq<Place>): Txn {
    if places == [] then txn else
    var n := |places| - 1;
    ReadStep(core, ReadSteps(core, txn, places[..n]), places[n], true)
  }

  function AnswersOf(core: Core, txn: Txn, places: seq<Place>): (found: seq<Option<Bytes>>)
    ensures |found| == |places|
  {
    seq(|places|, i requires 0 <= i < |places| => Answer(core, txn, places[i]))
  }

  lemma {:induction false} ReadsKeepChanges(core: Core, txn: Txn, places: seq<Place>)
    ensures ReadSteps(core, txn, places).changes == txn.changes
    ensures ReadSteps(core, txn, places).log == txn.log + ReadEvents(places, AnswersOf(core, txn, places))
  {
    if places != [] {
      var n := |places| - 1;
      ReadsKeepChanges(core, txn, places[..n]);
      assert ReadEvents(places, AnswersOf(core, txn, places)) ==
        ReadEvents(places[..n], AnswersOf(core, txn, places[..n])) + [Read(places[n], true, Answer(core, txn, places[n]))];
    }
  }

  /** A read-modify-write: the reads are watched whatever the caller asked for, the writes obey the caller. */
  function UpdateSteps(core: Core, txn: Txn, update: Update): Txn {
    var contents := update.Contents(AnswersOf(core, txn, update.places));
    WriteSteps(core, ReadSteps(core, txn, update.places), update.places, contents, !update.dontWatch)
  }

  lemma {:induction false} UpdateLog(core: Core, txn: Txn, update: Update)
    ensures var log := UpdateSteps(core, txn, update).log; txn.log <= log && IsUpdate(log[|txn.log|..], update)
  {
    hide ReadSteps, WriteSteps, ReadEvents, WriteEvents;
    var found := AnswersOf(core, txn, update.places);
    var contents := update.Contents(found);
    ReadsKeepChanges(core, txn, update.places);
    WriteStepsLog(core, ReadSteps(core, txn, update.places), update.places, contents, !update.dontWatch);
    var more := ReadEvents(update.places, found) + WriteEvents(update.places, contents, !update.dontWatch);
    assert UpdateSteps(core, txn, update).log == txn.log + more;
    assert (txn.log + more)[|txn.log|..] == more;
    UpdateShape(more, update, found);
  }

  function WriteSteps(core: Core, txn: Txn, places: seq<Place>, contents: seq<Option<Bytes>>, watched: bool): Txn
    requires |places| == |contents|
  {
    if places == [] then txn else
    var last := |places| - 1;
    WriteStep(core, WriteSteps(core, txn, places[..last], contents[..last], watched),
              places[last], watched, contents[last])
  }

  lemma {:induction false} WriteStepsLog(core: Core, txn: Txn, places: seq<Place>, contents: seq<Option<Bytes>>, watched: bool)
    requires |places| == |contents|
    ensures WriteSteps(core, txn, places, contents, watched).log == txn.log + WriteEvents(places, contents, watched)
  {
    if places != [] {
      var n := |places| - 1;
      WriteStepsLog(core, txn, places[..n], contents[..n], watched);
    }
  }

  // ---- Interleavings ----

  type Id = nat

  datatype Step =
    | Begin(id: Id)
    | DoRead(id: Id, place: Place, watched: bool)
    | DoWrite(id: Id, place: Place, watched: bool, content: Option<Bytes>)
    | DoCommit(id: Id)

  datatype System = System(core: Core, txns: map<Id, Txn>)

  /** Steps of transactions that are not open do nothing. A successful commit closes. */
  function Next(s: System, step: Step): System {
    if step.Begin? then s.(txns := s.txns[step.id := FRESH])
    else if step.id !in s.txns then s
    else
      var txn := s.txns[step.id];
      match step
      case DoRead(id, place, watched) => s.(txns := s.txns[id := ReadStep(s.core, txn, place, watched)])
      case DoWrite(id, place, watched, content) =>
        s.(txns := s.txns[id := WriteStep(s.core, txn, place, watched, content)])
      case DoCommit(id) =>
        if CanCommit(s.core, txn) then System(CommitStep(s.core, txn), s.txns - {id}) else s
  }

  function Run(s: System, steps: seq<Step>): System {
    if steps == [] then s else Next(Run(s, steps[..|steps| - 1]), steps[|steps| - 1])
  }

  function Opened(pairs: Pairs): System {
    System(Core(pairs, map[], 0, []), map[])
  }

  // ---- The reference: one transaction at a time, straight on the pairs ----

  /** The pairs after a log has run with nobody else around. */
  function Alone(pairs: Pairs, log: Log): Pairs {
    if log == [] then pairs else
    var before := Alone(pairs, log[..|log| - 1]);
    match log[|log| - 1]
    case Read(_, _, _) => before
    case Write(place, _, content) => Put(before, place, content)
  }

  /** Every watched read was answered as it would be answered with nobody else around. */
  ghost predicate AnsweredAlone(pairs: Pairs, log: Log) {
    forall i :: 0 <= i < |log| && log[i].Read? && log[i].watched ==>
      log[i].result == Find(Alone(pairs, log[..i]), log[i].place)
  }

  function Serial(pairs: Pairs, history: seq<Log>): Pairs {
    if history == [] then pairs else
    Alone(Serial(pairs, history[..|history| - 1]), history[|history| - 1])
  }

  ghost predicate Serializable(pairs: Pairs, history: seq<Log>) {
    forall i :: 0 <= i < |history| ==> AnsweredAlone(Serial(pairs, history[..i]), history[i])
  }

  // ---- The invariant of an open transaction ----

  function Changes(log: Log): map<Place, Option<Bytes>> {
    if log == [] then map[] else
    var before := Changes(log[..|log| - 1]);
    match log[|log| - 1]
    case Read(_, _, _) => before
    case Write(place, _, content) => before[place := content]
  }

  ghost predicate ReadHolds(core: Core, txn: Txn, i: nat)
    requires i < |txn.log|
  {
    var e := txn.log[i];
    e.Read? ==>
      if e.place in Changes(txn.log[..i]) then e.result == Changes(txn.log[..i])[e.place]
      else e.watched ==>
        && e.place in txn.watches
        && (txn.watches[e.place] == Generation(core, e.place) ==> e.result == Find(core.pairs, e.place))
  }

  ghost predicate TxnInvariant(core: Core, txn: Txn) {
    && txn.changes == Changes(txn.log)
    && (forall place :: place in txn.watches ==> txn.watches[place] <= Generation(core, place))
    && (forall i :: 0 <= i < |txn.log| ==> ReadHolds(core, txn, i))
  }

  ghost predicate Invariant(initial: Pairs, s: System) {
    && (forall place :: place in s.core.generations ==> s.core.generations[place] <= s.core.clock)
    && (forall id :: id in s.txns ==> TxnInvariant(s.core, s.txns[id]))
    && s.core.pairs == Serial(initial, s.core.history)
    && Serializable(initial, s.core.history)
  }

  lemma {:induction false} OverlayIsAlone(pairs: Pairs, log: Log)
    ensures Overlay(pairs, Changes(log)) == Alone(pairs, log)
  {
    if log == [] {
      assert Overlay(pairs, map[]) == pairs;
    } else {
      var n := |log| - 1;
      OverlayIsAlone(pairs, log[..n]);
      if log[n].Write? {
        OverlayPut(pairs, Changes(log[..n]), log[n].place, log[n].content);
      }
    }
  }

  lemma {:induction false} OverlayPut(pairs: Pairs, changes: map<Place, Option<Bytes>>, place: Place, content: Option<Bytes>)
    ensures Overlay(pairs, changes[place := content]) == Put(Overlay(pairs, changes), place, content)
  {
  }

  lemma {:induction false} ExtendKeepsReads(core: Core, txn: Txn, txn': Txn, e: Event)
    requires TxnInvariant(core, txn)
    requires txn'.log == txn.log + [e]
    requires forall place :: place in txn.watches ==> place in txn'.watches && txn'.watches[place] == txn.watches[place]
    ensures forall i :: 0 <= i < |txn.log| ==> ReadHolds(core, txn', i)
    ensures txn'.log[..|txn.log|] == txn.log
  {
    forall i | 0 <= i < |txn.log| ensures ReadHolds(core, txn', i) {
      assert txn'.log[..i] == txn.log[..i];
      assert ReadHolds(core, txn, i);
    }
  }

  lemma {:induction false} ReadKeeps(core: Core, txn: Txn, place: Place, watched: bool)
    requires TxnInvariant(core, txn)
    ensures TxnInvariant(core, ReadStep(core, txn, place, watched))
  {
    var txn' := ReadStep(core, txn, place, watched);
    var n := |txn.log|;
    ExtendKeepsReads(core, txn, txn', txn'.log[n]);
    assert txn'.log[..n] == txn.log;
    assert ReadHolds(core, txn', n);
  }

  lemma {:induction false} WriteKeeps(core: Core, txn: Txn, place: Place, watched: bool, content: Option<Bytes>)
    requires TxnInvariant(core, txn)
    ensures TxnInvariant(core, WriteStep(core, txn, place, watched, content))
  {
    var txn' := WriteStep(core, txn, place, watched, content);
    ExtendKeepsReads(core, txn, txn', txn'.log[|txn.log|]);
    assert txn'.log[..|txn'.log| - 1] == txn.log;
  }

  /** A commit either leaves a watched key alone or moves its generation past every watch. */
  lemma {:induction false} CommitKeepsOthers(core: Core, txn: Txn, other: Txn)
    requires forall place :: place in core.generations ==> core.generations[place] <= core.clock
    requires CanCommit(core, txn)
    requires TxnInvariant(core, other)
    ensures TxnInvariant(CommitStep(core, txn), other)
  {
    var core' := CommitStep(core, txn);
    forall i | 0 <= i < |other.log| ensures ReadHolds(core', other, i) {
      assert ReadHolds(core, other, i);
      var place := other.log[i].place;
      if place in txn.changes && place in other.watches {
        assert Generation(core', place) == core.clock + 1;
        assert other.watches[place] <= Generation(core, place) <= core.clock;
      }
    }
  }

  lemma {:induction false} CommitAnsweredAlone(core: Core, txn: Txn)
    requires TxnInvariant(core, txn)
    requires CanCommit(core, txn)
    ensures AnsweredAlone(core.pairs, txn.log)
  {
    forall i | 0 <= i < |txn.log| && txn.log[i].Read? && txn.log[i].watched
      ensures txn.log[i].result == Find(Alone(core.pairs, txn.log[..i]), txn.log[i].place)
    {
      OverlayIsAlone(core.pairs, txn.log[..i]);
      assert ReadHolds(core, txn, i);
    }
  }

  lemma {:induction false} CommitKeeps(initial: Pairs, s: System, id: Id)
    requires Invariant(initial, s)
    requires id in s.txns && CanCommit(s.core, s.txns[id])
    ensures Invariant(initial, Next(s, DoCommit(id)))
  {
    var txn := s.txns[id];
    var s' := Next(s, DoCommit(id));
    var old' := s.core.history;
    var new' := s'.core.history;
    forall other | other in s'.txns ensures TxnInvariant(s'.core, s'.txns[other]) {
      CommitKeepsOthers(s.core, txn, s.txns[other]);
    }
    assert new'[..|old'|] == old';
    OverlayIsAlone(s.core.pairs, txn.log);
    CommitAnsweredAlone(s.core, txn);
    forall i | 0 <= i < |new'| ensures AnsweredAlone(Serial(initial, new'[..i]), new'[i]) {
      if i < |old'| {
        assert new'[..i] == old'[..i];
      }
    }
  }

  lemma {:induction false} InvariantHolds(initial: Pairs, steps: seq<Step>)
    ensures Invariant(initial, Run(Opened(initial), steps))
  {
    if steps != [] {
      var before := steps[..|steps| - 1];
      var step := steps[|steps| - 1];
      InvariantHolds(initial, before);
      var s := Run(Opened(initial), before);
      if step.id in s.txns {
        var txn := s.txns[step.id];
        match step
        case Begin(_) =>
        case DoRead(id, place, watched) => ReadKeeps(s.core, txn, place, watched);
        case DoWrite(id, place, watched, content) => WriteKeeps(s.core, txn, place, watched, content);
        case DoCommit(id) => if CanCommit(s.core, txn) { CommitKeeps(initial, s, id); }
      }
    }
  }

  /**
  Serializability. However the transactions interleave, the stored pairs are those of running
  the committed ones alone, one after another in commit order, and in that serial run every
  watched read gets the answer it got.
  */
  lemma {:induction false} CommittedRunsAreSerial(initial: Pairs, steps: seq<Step>)
    ensures var core := Run(Opened(initial), steps).core;
      core.pairs == Serial(initial, core.history) && Serializable(initial, core.history)
  {
    InvariantHolds(initial, steps);
  }

  // ---- Deterministic clients ----

  datatype Action =
    | AskRead(place: Place)
    | AskWrite(place: Place, watched: bool, content: Option<Bytes>)

  /** A client chooses its next action from everything it did and was answered so far. */
  type Client = Log -> Action

  ghost predicate Follows(client: Client, log: Log) {
    forall i :: 0 <= i < |log| ==>
      match client(log[..i])
      case AskRead(place) => log[i].Read? && log[i].place == place && log[i].watched
      case AskWrite(place, watched, content) => log[i] == Write(place, watched, content)
  }

  /** The log of a client's first `n` actions with nobody else around. */
  ghost function RunClient(client: Client, pairs: Pairs, n: nat): Log {
    if n == 0 then [] else
    var before := RunClient(client, pairs, n - 1);
    before + [match client(before)
              case AskRead(place) => Read(place, true, Find(Alone(pairs, before), place))
              case AskWrite(place, watched, content) => Write(place, watched, content)]
  }

  lemma {:induction false} FollowedAlone(client: Client, pairs: Pairs, log: Log)
    requires Follows(client, log)
    requires AnsweredAlone(pairs, log)
    ensures RunClient(client, pairs, |log|) == log
  {
    if log != [] {
      var before := log[..|log| - 1];
      forall i | 0 <= i < |before| ensures before[..i] == log[..i] {}
      FollowedAlone(client, pairs, before);
      assert log == before + [log[|log| - 1]];
    }
  }

  /** A committed client did, action by action, what it does when it is run alone at its commit. */
  lemma {:induction false} ClientsRunAlone(initial: Pairs, steps: seq<Step>, i: nat, client: Client)
    requires var history := Run(Opened(initial), steps).core.history;
      i < |history| && Follows(client, history[i])
    ensures var history := Run(Opened(initial), steps).core.history;
      history[i] == RunClient(client, Serial(initial, history[..i]), |history[i]|)
  {
    CommittedRunsAreSerial(initial, steps);
    var history := Run(Opened(initial), steps).core.history;
    FollowedAlone(client, Serial(initial, history[..i]), history[i]);
  }

  // ---- Read-modify-write of the modalities ----

  /** A modality reads its keys, computes one blob for each from all it read, and writes them. */
  datatype Update = Update(places: seq<Place>, compute: (seq<Option<Bytes>>, nat) -> Option<Bytes>, dontWatch: bool) {
    function Contents(found: seq<Option<Bytes>>): (contents: seq<Option<Bytes>>)
      ensures |contents| == |places|
    {
      seq(|places|, i requires 0 <= i < |places| => compute(found, i))
    }
  }

  function ReadEvents(places: seq<Place>, found: seq<Option<Bytes>>): Log
    requires |places| == |found|
  {
    seq(|places|, i requires 0 <= i < |places| => Read(places[i], true, found[i]))
  }

  function WriteEvents(places: seq<Place>, contents: seq<Option<Bytes>>, watched: bool): Log
    requires |places| == |contents|
  {
    seq(|places|, i requires 0 <= i < |places| => Write(places[i], watched, contents[i]))
  }

  /** The reads are watched whatever the caller asked for; the writes obey the caller. */
  ghost predicate IsUpdate(log: Log, update: Update) {
    exists found: seq<Option<Bytes>> :: |found| == |update.places| &&
      log == ReadEvents(update.places, found)
           + WriteEvents(update.places, update.Contents(found), !update.dontWatch)
  }

  lemma {:induction false} UpdateShape(log: Log, update: Update, found: seq<Option<Bytes>>)
    requires |found| == |update.places|
    requires log == ReadEvents(update.places, found)
                  + WriteEvents(update.places, update.Contents(found), !update.dontWatch)
    ensures IsUpdate(log, update)
  {
  }

  function Apply(pairs: Pairs, update: Update): Pairs {
    PutAll(pairs, update.places, update.Contents(FindAll(pairs, update.places)))
  }

  ghost function ApplyAll(pairs: Pairs, updates: seq<Update>): Pairs {
    if updates == [] then pairs else
    Apply(ApplyAll(pairs, updates[..|updates| - 1]), updates[|updates| - 1])
  }

  lemma {:induction false} ReadsChangeNothing(pairs: Pairs, places: seq<Place>, found: seq<Option<Bytes>>, rest: Log)
    requires |places| == |found|
    ensures Alone(pairs, ReadEvents(places, found) + rest) == Alone(pairs, rest)
    decreases |rest|, |places|
  {
    var log := ReadEvents(places, found) + rest;
    if rest != [] {
      assert log[..|log| - 1] == ReadEvents(places, found) + rest[..|rest| - 1];
      ReadsChangeNothing(pairs, places, found, rest[..|rest| - 1]);
    } else if places != [] {
      var n := |places| - 1;
      assert log[..n] == ReadEvents(places[..n], found[..n]) + [];
      ReadsChangeNothing(pairs, places[..n], found[..n], []);
    }
  }

  lemma {:induction false} PutAllAppends(pairs: Pairs, places: seq<Place>, contents: seq<Option<Bytes>>)
    requires |places| == |contents| > 0
    ensures var n := |places| - 1;
      PutAll(pairs, places, contents) == Put(PutAll(pairs, places[..n], contents[..n]), places[n], contents[n])
    decreases |places|
  {
    var n := |places| - 1;
    if n > 0 {
      PutAllAppends(Put(pairs, places[0], contents[0]), places[1..], contents[1..]);
      assert places[1..][..n - 1] == places[..n][1..] && contents[1..][..n - 1] == contents[..n][1..];
    }
  }

  lemma {:induction false} WritesAreBatch(pairs: Pairs, places: seq<Place>, contents: seq<Option<Bytes>>, watched: bool)
    requires |places| == |contents|
    ensures Alone(pairs, WriteEvents(places, contents, watched)) == PutAll(pairs, places, contents)
    decreases |places|
  {
    if places != [] {
      var n := |places| - 1;
      var log := WriteEvents(places, contents, watched);
      assert log[..n] == WriteEvents(places[..n], contents[..n], watched);
      WritesAreBatch(pairs, places[..n], contents[..n], watched);
      PutAllAppends(pairs, places, contents);
    }
  }

  /** The leading reads of a log that is answered alone tell the pairs it started from. */
  lemma {:induction false} ReadsTellPairs(pairs: Pairs, places: seq<Place>, found: seq<Option<Bytes>>, rest: Log)
    requires |places| == |found|
    requires AnsweredAlone(pairs, ReadEvents(places, found) + rest)
    ensures found == FindAll(pairs, places)
  {
    var log := ReadEvents(places, found) + rest;
    forall i | 0 <= i < |places| ensures found[i] == Find(pairs, places[i]) {
      assert log[i] == Read(places[i], true, found[i]);
      assert log[..i] == ReadEvents(places[..i], found[..i]) + [];
      ReadsChangeNothing(pairs, places[..i], found[..i], []);
    }
  }

  lemma {:induction false} UpdateAlone(pairs: Pairs, log: Log, update: Update)
    requires IsUpdate(log, update)
    requires AnsweredAlone(pairs, log)
    ensures Alone(pairs, log) == Apply(pairs, update)
  {
    var places := update.places;
    var found: seq<Option<Bytes>> :| |found| == |places| &&
      log == ReadEvents(places, found) + WriteEvents(places, update.Contents(found), !update.dontWatch);
    hide *;
    var writes := WriteEvents(places, update.Contents(found), !update.dontWatch);
    ReadsTellPairs(pairs, places, found, writes);
    ReadsChangeNothing(pairs, places, found, writes);
    WritesAreBatch(pairs, places, update.Contents(found), !update.dontWatch);
    ApplyIsBatch(pairs, update);
  }

  lemma {:induction false} ApplyIsBatch(pairs: Pairs, update: Update)
    ensures Apply(pairs, update) == PutAll(pairs, update.places, update.Contents(FindAll(pairs, update.places)))
  {
  }

  // ---- Transactions of several calls ----

  /** One call inside a transaction: a modality's read-modify-write, or any other reads and writes. */
  datatype Call = Modality(update: Update) | Plain(events: Log)

  ghost predicate IsCall(log: Log, call: Call) {
    match call
    case Modality(update) => IsUpdate(log, update)
    case Plain(events) => log == events
  }

  /** The log is that of the calls, one after another. */
  ghost predicate IsCalls(log: Log, calls: seq<Call>)
    decreases |calls|
  {
    if calls == [] then log == [] else
    var n := |calls| - 1;
    exists k :: 0 <= k <= |log| && IsCalls(log[..k], calls[..n]) && IsCall(log[k..], calls[n])
  }

  ghost predicate AllCalls(history: seq<Log>, groups: seq<seq<Call>>) {
    |groups| == |history| && forall i :: 0 <= i < |groups| ==> IsCalls(history[i], groups[i])
  }

  function Join<T>(groups: seq<seq<T>>): seq<T> {
    if groups == [] then [] else Join(groups[..|groups| - 1]) + groups[|groups| - 1]
  }

  function ApplyCall(pairs: Pairs, call: Call): Pairs {
    match call
    case Modality(update) => Apply(pairs, update)
    case Plain(events) => Alone(pairs, events)
  }

  ghost function ApplyCalls(pairs: Pairs, calls: seq<Call>): Pairs {
    if calls == [] then pairs else
    ApplyCall(ApplyCalls(pairs, calls[..|calls| - 1]), calls[|calls| - 1])
  }

  /** A call adds itself to whatever the transaction did before. */
  lemma {:induction false} CallAppends(log: Log, calls: seq<Call>, more: Log, call: Call)
    requires IsCalls(log, calls) && IsCall(more, call)
    ensures IsCalls(log + more, calls + [call])
  {
    hide IsCall;
    var all, k := log + more, |log|;
    assert all[..k] == log && all[k..] == more && (calls + [call])[..|calls|] == calls;
  }

  lemma {:induction false} AloneConcat(pairs: Pairs, log: Log, more: Log)
    ensures Alone(pairs, log + more) == Alone(Alone(pairs, log), more)
    decreases |more|
  {
    if more == [] {
      assert log + more == log;
    } else {
      var n := |more| - 1;
      AloneConcat(pairs, log, more[..n]);
      assert (log + more)[..|log + more| - 1] == log + more[..n];
    }
  }

  /** A log answered alone splits anywhere: its second half is answered alone after its first. */
  lemma {:induction false} AnsweredParts(pairs: Pairs, log: Log, k: nat)
    requires AnsweredAlone(pairs, log) && k <= |log|
    ensures AnsweredAlone(pairs, log[..k]) && AnsweredAlone(Alone(pairs, log[..k]), log[k..])
  {
    hide Alone;
    forall i | 0 <= i < k ensures log[..k][i] == log[i] && log[..k][..i] == log[..i] {
    }
    var rest := log[k..];
    forall i | 0 <= i < |rest| && rest[i].Read? && rest[i].watched
      ensures rest[i].result == Find(Alone(Alone(pairs, log[..k]), rest[..i]), rest[i].place)
    {
      AloneConcat(pairs, log[..k], rest[..i]);
      assert log[..k] + rest[..i] == log[..k + i] && rest[i] == log[k + i];
    }
  }

  lemma {:induction false} CallAlone(pairs: Pairs, log: Log, call: Call)
    requires IsCall(log, call) && AnsweredAlone(pairs, log)
    ensures Alone(pairs, log) == ApplyCall(pairs, call)
  {
    hide IsUpdate, AnsweredAlone, Alone, Apply;
    if call.Modality? {
      UpdateAlone(pairs, log, call.update);
    }
  }

  lemma {:induction false} CallsAlone(pairs: Pairs, log: Log, calls: seq<Call>)
    requires IsCalls(log, calls) && AnsweredAlone(pairs, log)
    ensures Alone(pairs, log) == ApplyCalls(pairs, calls)
    decreases |calls|
  {
    hide IsCall, AnsweredAlone, ApplyCall;
    if calls != [] {
      var n := |calls| - 1;
      var k :| 0 <= k <= |log| && IsCalls(log[..k], calls[..n]) && IsCall(log[k..], calls[n]);
      hide IsCalls, Alone;
      AnsweredParts(pairs, log, k);
      CallsAlone(pairs, log[..k], calls[..n]);
      CallAlone(Alone(pairs, log[..k]), log[k..], calls[n]);
      AloneConcat(pairs, log[..k], log[k..]);
      assert log[..k] + log[k..] == log;
    }
  }

  lemma {:induction false} ApplyCallsConcat(pairs: Pairs, calls: seq<Call>, more: seq<Call>)
    ensures ApplyCalls(pairs, calls + more) == ApplyCalls(ApplyCalls(pairs, calls), more)
    decreases |more|
  {
    hide ApplyCall;
    if more == [] {
      assert calls + more == calls;
    } else {
      var n := |more| - 1;
      ApplyCallsConcat(pairs, calls, more[..n]);
      assert (calls + more)[..|calls + more| - 1] == calls + more[..n];
    }
  }

  lemma {:induction false} SerializablePrefix(initial: Pairs, history: seq<Log>, n: nat)
    requires n <= |history| && Serializable(initial, history)
    ensures Serializable(initial, history[..n])
  {
    forall i | 0 <= i < n ensures AnsweredAlone(Serial(initial, history[..n][..i]), history[..n][i]) {
      assert history[..n][..i] == history[..i];
    }
  }

  lemma {:induction false} SerialApplies(initial: Pairs, history: seq<Log>, groups: seq<seq<Call>>)
    requires AllCalls(history, groups)
    requires Serializable(initial, history)
    ensures Serial(initial, history) == ApplyCalls(initial, Join(groups))
  {
    hide IsCalls, ApplyCalls, AnsweredAlone;
    if history == [] {
      NoCalls(initial);
    } else {
      var n := |history| - 1;
      var pairs := Serial(initial, history[..n]);
      assert AnsweredAlone(pairs, history[n]);
      assert pairs == ApplyCalls(initial, Join(groups[..n])) by {
        SerializablePrefix(initial, history, n);
        SerialApplies(initial, history[..n], groups[..n]);
      }
      CallsAlone(pairs, history[n], groups[n]);
      ApplyCallsConcat(initial, Join(groups[..n]), groups[n]);
    }
  }

  lemma {:induction false} NoCalls(pairs: Pairs)
    ensures ApplyCalls(pairs, []) == pairs
  {
  }

  /**
  No lost updates. Whatever calls the committed transactions consist of, the pairs are those of
  making the calls one after another, in commit order, with every read-modify-write of a modality
  computed from what it then finds, even for callers who asked not to watch.
  */
  lemma {:induction false} NoLostUpdates(initial: Pairs, steps: seq<Step>, groups: seq<seq<Call>>)
    requires AllCalls(Run(Opened(initial), steps).core.history, groups)
    ensures Run(Opened(initial), steps).core.pairs == ApplyCalls(initial, Join(groups))
  {
    hide AllCalls, Run, Serializable, Serial, ApplyCalls, Join;
    CommittedRunsAreSerial(initial, steps);
    SerialApplies(initial, Run(Opened(initial), steps).core.history, groups);
  }

  function AsCalls(updates: seq<Update>): (calls: seq<Call>)
    ensures |calls| == |updates|
  {
    seq(|updates|, i requires 0 <= i < |updates| => Modality(updates[i]))
  }

  /** Calls that are all read-modify-writes apply them in order. */
  lemma {:induction false} UpdatesAreCalls(pairs: Pairs, updates: seq<Update>)
    ensures ApplyCalls(pairs, AsCalls(updates)) == ApplyAll(pairs, updates)
  {
    hide Apply;
    if updates != [] {
      var n := |updates| - 1;
      UpdatesAreCalls(pairs, updates[..n]);
      assert AsCalls(updates)[..n] == AsCalls(updates[..n]);
    }
  }

  // ---- A read-modify-write as steps of an interleaving ----

  function DoReads(id: Id, places: seq<Place>): seq<Step> {
    seq(|places|, i requires 0 <= i < |places| => DoRead(id, places[i], true))
  }

  function DoWrites(id: Id, places: seq<Place>, contents: seq<Option<Bytes>>, watched: bool): seq<Step>
    requires |places| == |contents|
  {
    seq(|places|, i requires 0 <= i < |places| => DoWrite(id, places[i], watched, contents[i]))
  }

  /** The steps a modality takes inside an open transaction. */
  function UpdateStepsOf(s: System, id: Id, update: Update): seq<Step>
    requires id in s.txns
  {
    DoReads(id, update.places)
    + DoWrites(id, update.places, update.Contents(AnswersOf(s.core, s.txns[id], update.places)), !update.dontWatch)
  }

  lemma {:induction false} ReadsAreSteps(s: System, id: Id, places: seq<Place>)
    requires id in s.txns
    ensures Run(s, DoReads(id, places)) == s.(txns := s.txns[id := ReadSteps(s.core, s.txns[id], places)])
  {
    if places == [] {
      assert s.txns[id := s.txns[id]] == s.txns;
    } else {
      var n := |places| - 1;
      ReadsAreSteps(s, id, places[..n]);
      assert DoReads(id, places) == DoReads(id, places[..n]) + [DoRead(id, places[n], true)];
      RunAppends(s, DoReads(id, places[..n]), DoRead(id, places[n], true));
    }
  }

  lemma {:induction false} WritesAreSteps(s: System, id: Id, places: seq<Place>, contents: seq<Option<Bytes>>, watched: bool)
    requires id in s.txns && |places| == |contents|
    ensures Run(s, DoWrites(id, places, contents, watched)) ==
      s.(txns := s.txns[id := WriteSteps(s.core, s.txns[id], places, contents, watched)])
    decreases |places|
  {
    if places == [] {
      assert s.txns[id := s.txns[id]] == s.txns;
    } else {
      var n := |places| - 1;
      WritesAreSteps(s, id, places[..n], contents[..n], watched);
      assert DoWrites(id, places, contents, watched) ==
        DoWrites(id, places[..n], contents[..n], watched) + [DoWrite(id, places[n], watched, contents[n])];
      RunAppends(s, DoWrites(id, places[..n], contents[..n], watched), DoWrite(id, places[n], watched, contents[n]));
    }
  }

  /** What `ReadModifyWrite` does to a transaction is what its watched reads and its writes do as steps of a run. */
  lemma {:induction false} UpdateIsSteps(s: System, id: Id, update: Update)
    requires id in s.txns
    ensures Run(s, UpdateStepsOf(s, id, update)) == s.(txns := s.txns[id := UpdateSteps(s.core, s.txns[id], update)])
  {
    hide Run, ReadSteps, WriteSteps, DoReads, DoWrites;
    var contents := update.Contents(AnswersOf(s.core, s.txns[id], update.places));
    ReadsAreSteps(s, id, update.places);
    var read := s.(txns := s.txns[id := ReadSteps(s.core, s.txns[id], update.places)]);
    WritesAreSteps(read, id, update.places, contents, !update.dontWatch);
    RunConcat(s, DoReads(id, update.places), DoWrites(id, update.places, contents, !update.dontWatch));
  }

  lemma {:induction false} RunAppends(s: System, steps: seq<Step>, step: Step)
    ensures Run(s, steps + [step]) == Next(Run(s, steps), step)
  {
    assert (steps + [step])[..|steps|] == steps;
  }

  /** Two increments of one counter whose reads are not watched: both commit and one is lost. */
  lemma {:induction false} UnwatchedReadLosesUpdate(place: Place)
    ensures exists steps ::
      var core := Run(Opened(map[place := [0]]), steps).core;
      && core.pairs == map[place := [1]]
      && core.history == [[Read(place, false, Some([0])), Write(place, false, Some([1]))],
                          [Read(place, false, Some([0])), Write(place, false, Some([1]))]]
  {
    var s0 := Opened(map[place := [0]]);
    var log: Log := [Read(place, false, Some([0])), Write(place, false, Some([1]))];
    var one := OpenIncrement(s0, 0, place);
    var two := OpenIncrement(Run(s0, one), 1, place);
    RunConcat(s0, one, two);
    var both := one + two;
    var s2 := Run(s0, both);
    RunAppends(s0, both, DoCommit(0));
    RunAppends(s0, both + [DoCommit(0)], DoCommit(1));
    hide Run;
    CommitLog(s2, 0, place, log);
    CommitLog(Next(s2, DoCommit(0)), 1, place, log);
  }

  lemma {:induction false} CommitLog(s: System, id: Id, place: Place, log: Log)
    requires id in s.txns && s.txns[id] == Txn(map[], map[place := Some([1])], log)
    requires s.core.pairs.Keys == {place}
    ensures var s' := Next(s, DoCommit(id));
      s'.core.pairs == map[place := [1]] && s'.core.history == s.core.history + [log] && s'.txns == s.txns - {id}
  {
    assert Overlay(s.core.pairs, map[place := Some([1])]) == map[place := [1]];
  }

  lemma {:induction false} RunConcat(s: System, steps: seq<Step>, more: seq<Step>)
    ensures Run(s, steps + more) == Run(Run(s, steps), more)
    decreases |more|
  {
    if more == [] {
      assert steps + more == steps;
    } else {
      RunConcat(s, steps, more[..|more| - 1]);
      assert (steps + more)[..|steps + more| - 1] == steps + more[..|more| - 1];
    }
  }

  /** Opens a transaction that increments a zero counter without watching it. */
  lemma {:induction false} OpenIncrement(s: System, id: Id, place: Place) returns (steps: seq<Step>)
    requires Find(s.core.pairs, place) == Some([0])
    ensures Run(s, steps) == s.(txns := s.txns[id := Txn(map[], map[place := Some([1])],
      [Read(place, false, Some([0])), Write(place, false, Some([1]))])])
  {
    var a, b, c := Begin(id), DoRead(id, place, false), DoWrite(id, place, false, Some([1]));
    RunAppends(s, [], a);
    RunAppends(s, [a], b);
    RunAppends(s, [a, b], c);
    assert [] + [a] == [a] && [a] + [b] == [a, b] && [a, b] + [c] == [a, b, c];
    steps := [a, b, c];
    var reading := ReadStep(s.core, FRESH, place, false);
    var writing := WriteStep(s.core, reading, place, false, Some([1]));
    assert writing == Txn(map[], map[place := Some([1])], [Read(place, false, Some([0])), Write(place, false, Some([1]))]);
    assert s.txns[id := FRESH][id := reading][id := writing] == s.txns[id := writing];
  }
}
