/**
When a transaction commits, told from the steps of a run and the committed logs alone: exactly
when nothing it watched was written by a log that committed since. How watches and generations
are kept does not appear in the statement.
*/
module CommitRule {
  import opened Store
  import opened Transactions

  predicate WritesTo(log: Log, place: Place) {
    exists i :: 0 <= i < |log| && log[i].Write? && log[i].place == place
  }

  /** A watched read or a watched write. */
  predicate Watches(step: Step, id: Id, place: Place) {
    (step.DoRead? || step.DoWrite?) && step.id == id && step.place == place && step.watched
  }

  /** Step `j` belongs to what the id began last. */
  predicate SinceBegin(steps: seq<Step>, id: Id, j: nat) {
    j < |steps| && forall k :: j <= k < |steps| ==> steps[k] != Begin(id)
  }

  ghost function Committed(initial: Pairs, steps: seq<Step>): seq<Log> {
    Run(Opened(initial), steps).core.history
  }

  /** Log number `i` writes the place that step `j` of the transaction watched before it was committed. */
  ghost predicate Overtakes(initial: Pairs, steps: seq<Step>, id: Id, j: nat, i: nat) {
    && SinceBegin(steps, id, j) && |Committed(initial, steps[..j])| <= i < |Committed(initial, steps)|
    && (steps[j].DoRead? || steps[j].DoWrite?) && Watches(steps[j], id, steps[j].place)
    && WritesTo(Committed(initial, steps)[i], steps[j].place)
  }

  ghost predicate Overtaken(initial: Pairs, steps: seq<Step>, id: Id) {
    exists j: nat, i: nat :: Overtakes(initial, steps, id, j, i)
  }

  // ---- Generations, from the committed logs ----

  /** One more than the number of the last log that writes the place, or zero. */
  ghost function LastWrite(history: seq<Log>, place: Place): (n: nat)
    ensures n <= |history|
  {
    if history == [] then 0
    else if WritesTo(history[|history| - 1], place) then |history|
    else LastWrite(history[..|history| - 1], place)
  }

  lemma {:induction false} ChangesAreWrites(log: Log, place: Place)
    ensures place in Changes(log) <==> WritesTo(log, place)
  {
    if log != [] {
      var n := |log| - 1;
      ChangesAreWrites(log[..n], place);
      WritesAppends(log, place);
    }
  }

  lemma {:induction false} WritesAppends(log: Log, place: Place)
    requires log != []
    ensures var n := |log| - 1;
      WritesTo(log, place) <==> WritesTo(log[..n], place) || (log[n].Write? && log[n].place == place)
  {
    var n := |log| - 1;
    if WritesTo(log[..n], place) {
      var i :| 0 <= i < n && log[..n][i].Write? && log[..n][i].place == place;
      assert log[i].Write? && log[i].place == place;
    }
    if i :| 0 <= i < |log| && log[i].Write? && log[i].place == place {
      assert i < n ==> log[..n][i] == log[i];
    }
  }

  /** The last write is the same for a longer history exactly if nothing later writes the place. */
  lemma {:induction false} LastWriteSame(history: seq<Log>, h: nat, place: Place)
    requires h <= |history|
    ensures LastWrite(history[..h], place) == LastWrite(history, place) <==>
      forall i :: h <= i < |history| ==> !WritesTo(history[i], place)
    decreases |history|
  {
    hide WritesTo;
    if h == |history| {
      assert history[..h] == history;
    } else {
      var n := |history| - 1;
      LastWriteSame(history[..n], h, place);
      assert history[..n][..h] == history[..h];
      assert forall i :: h <= i < n ==> history[..n][i] == history[i];
    }
  }

  // ---- Watches, from the steps ----

  /** For every place the transaction watched since it began: how many logs were committed at the first watch. */
  ghost function Watched(initial: Pairs, steps: seq<Step>, id: Id): map<Place, nat> {
    if steps == [] then map[] else
    var n := |steps| - 1;
    var before, step := Watched(initial, steps[..n], id), steps[n];
    if step == Begin(id) then map[]
    else if (step.DoRead? || step.DoWrite?) && step.id == id && step.watched && step.place !in before then
      before[step.place := |Committed(initial, steps[..n])|]
    else before
  }

  lemma {:induction false} HistoryGrows(initial: Pairs, steps: seq<Step>, j: nat)
    requires j <= |steps|
    ensures Committed(initial, steps[..j]) <= Committed(initial, steps)
    decreases |steps|
  {
    if j == |steps| {
      assert steps[..j] == steps;
    } else {
      var n := |steps| - 1;
      HistoryGrows(initial, steps[..n], j);
      assert steps[..n][..j] == steps[..j];
    }
  }

  /** Every watched step is at or after the first watch of its place. */
  lemma {:induction false} WatchedFirst(initial: Pairs, steps: seq<Step>, id: Id, j: nat, place: Place)
    requires SinceBegin(steps, id, j) && Watches(steps[j], id, place)
    ensures place in Watched(initial, steps, id)
    ensures Watched(initial, steps, id)[place] <= |Committed(initial, steps[..j])|
  {
    hide Run;
    var n := |steps| - 1;
    if j == n {
      WatchedBounded(initial, steps[..n], id);
    } else {
      assert SinceBegin(steps[..n], id, j);
      WatchedFirst(initial, steps[..n], id, j, place);
      assert steps[..n][..j] == steps[..j];
    }
  }

  lemma {:induction false} WatchedBounded(initial: Pairs, steps: seq<Step>, id: Id)
    ensures forall place :: place in Watched(initial, steps, id) ==>
      Watched(initial, steps, id)[place] <= |Committed(initial, steps)|
  {
    hide Run;
    if steps != [] {
      var n := |steps| - 1;
      WatchedBounded(initial, steps[..n], id);
      HistoryGrows(initial, steps, n);
    }
  }

  /** The first watch of a place is one of the steps. */
  lemma {:induction false} WatchedStep(initial: Pairs, steps: seq<Step>, id: Id, place: Place) returns (j: nat)
    requires place in Watched(initial, steps, id)
    ensures SinceBegin(steps, id, j) && Watches(steps[j], id, place)
    ensures Watched(initial, steps, id)[place] == |Committed(initial, steps[..j])|
  {
    hide Run;
    var n := |steps| - 1;
    if place in Watched(initial, steps[..n], id) {
      j := WatchedStep(initial, steps[..n], id, place);
      assert steps[..n][..j] == steps[..j];
    } else {
      j := n;
    }
  }

  // ---- The invariant ----

  ghost predicate Tracks(initial: Pairs, steps: seq<Step>, s: System, id: Id)
    requires id in s.txns
  {
    var watched, history := Watched(initial, steps, id), s.core.history;
    && s.txns[id].watches.Keys == watched.Keys
    && forall place :: place in watched ==>
      watched[place] <= |history| && s.txns[id].watches[place] == LastWrite(history[..watched[place]], place)
  }

  ghost predicate Generations(s: System) {
    && s.core.clock == |s.core.history|
    && forall place :: Generation(s.core, place) == LastWrite(s.core.history, place)
  }

  lemma {:induction false} CommitMoves(core: Core, txn: Txn)
    requires CanCommit(core, txn) && txn.changes == Changes(txn.log)
    requires Generations(System(core, map[]))
    ensures Generations(System(CommitStep(core, txn), map[]))
  {
    var core' := CommitStep(core, txn);
    var n := |core.history|;
    assert core'.history[..n] == core.history;
    forall place ensures Generation(core', place) == LastWrite(core'.history, place) {
      ChangesAreWrites(txn.log, place);
    }
  }

  lemma {:induction false} TracksLonger(initial: Pairs, steps: seq<Step>, more: seq<Step>, s: System, s': System, id: Id)
    requires id in s.txns && id in s'.txns && s'.txns[id] == s.txns[id] && s.core.history <= s'.core.history
    requires Tracks(initial, steps, s, id) && Watched(initial, more, id) == Watched(initial, steps, id)
    ensures Tracks(initial, more, s', id)
  {
    hide LastWrite, Watched;
    var watched := Watched(initial, steps, id);
    forall place | place in watched ensures s'.core.history[..watched[place]] == s.core.history[..watched[place]] {
    }
  }

  lemma {:induction false} WatchedAppends(initial: Pairs, steps: seq<Step>, step: Step)
    requires step.DoRead? || step.DoWrite?
    ensures var before := Watched(initial, steps, step.id);
      Watched(initial, steps + [step], step.id) ==
        if step.watched && step.place !in before then before[step.place := |Committed(initial, steps)|] else before
  {
    hide Run;
    assert (steps + [step])[..|steps|] == steps;
  }

  lemma {:induction false} WatchesAppend(s: System, step: Step)
    requires (step.DoRead? || step.DoWrite?) && step.id in s.txns
    ensures var s', before := Next(s, step), s.txns[step.id].watches;
      && step.id in s'.txns && s'.core == s.core
      && s'.txns[step.id].watches ==
        if step.watched && step.place !in before then before[step.place := Generation(s.core, step.place)] else before
  {
  }

  lemma {:induction false} TracksWatch(initial: Pairs, steps: seq<Step>, s: System, step: Step)
    requires step.DoRead? || step.DoWrite?
    requires s == Run(Opened(initial), steps) && step.id in s.txns
    requires Generations(s) && Tracks(initial, steps, s, step.id)
    ensures step.id in Next(s, step).txns && Tracks(initial, steps + [step], Next(s, step), step.id)
  {
    hide LastWrite, Run, Watched, Next;
    WatchedAppends(initial, steps, step);
    WatchesAppend(s, step);
    var history := s.core.history;
    assert history[..|history|] == history;
  }

  lemma {:induction false} TrackedStep(initial: Pairs, steps: seq<Step>, step: Step, id: Id)
    requires var s := Run(Opened(initial), steps);
      Generations(s) && forall other :: other in s.txns ==> Tracks(initial, steps, s, other)
    requires id in Run(Opened(initial), steps + [step]).txns
    ensures Tracks(initial, steps + [step], Run(Opened(initial), steps + [step]), id)
  {
    var s := Run(Opened(initial), steps);
    RunAppends(Opened(initial), steps, step);
    hide Run, LastWrite;
    assert (steps + [step])[..|steps|] == steps;
    if step == Begin(id) {
    } else if (step.DoRead? || step.DoWrite?) && step.id == id {
      TracksWatch(initial, steps, s, step);
    } else {
      TracksLonger(initial, steps, steps + [step], s, Next(s, step), id);
    }
  }

  lemma {:induction false} AllTracked(initial: Pairs, steps: seq<Step>)
    ensures var s := Run(Opened(initial), steps);
      Generations(s) && forall id :: id in s.txns ==> Tracks(initial, steps, s, id)
  {
    if steps != [] {
      var n := |steps| - 1;
      AllTracked(initial, steps[..n]);
      var s, step := Run(Opened(initial), steps[..n]), steps[n];
      var s' := Run(Opened(initial), steps);
      assert s' == Next(s, step);
      hide Run;
      assert Generations(s') by {
        if step.DoCommit? && step.id in s.txns && CanCommit(s.core, s.txns[step.id]) {
          InvariantHolds(initial, steps[..n]);
          assert TxnInvariant(s.core, s.txns[step.id]);
          CommitMoves(s.core, s.txns[step.id]);
        }
      }
      assert steps == steps[..n] + [step];
      forall id | id in s'.txns ensures Tracks(initial, steps, s', id) {
        TrackedStep(initial, steps[..n], step, id);
      }
    }
  }

  // ---- The rule ----

  /** The place was not watched, or is as it was at its first watch. */
  ghost predicate Untouched(initial: Pairs, steps: seq<Step>, id: Id, place: Place) {
    var watched, history := Watched(initial, steps, id), Committed(initial, steps);
    place in watched ==>
      watched[place] <= |history| && LastWrite(history[..watched[place]], place) == LastWrite(history, place)
  }

  lemma {:induction false} CanCommitIs(initial: Pairs, steps: seq<Step>, id: Id)
    requires id in Run(Opened(initial), steps).txns
    ensures var s := Run(Opened(initial), steps);
      CanCommit(s.core, s.txns[id]) <==> forall place :: Untouched(initial, steps, id, place)
  {
    AllTracked(initial, steps);
    var s, watched := Run(Opened(initial), steps), Watched(initial, steps, id);
    var watches := s.txns[id].watches;
    assert Tracks(initial, steps, s, id) && Generations(s);
    hide Run, LastWrite, Watched;
    forall place ensures Untouched(initial, steps, id, place) <==>
      (place in watches ==> watches[place] == Generation(s.core, place))
    {
      assert place in watches.Keys <==> place in watched.Keys;
      assert Generation(s.core, place) == LastWrite(s.core.history, place);
    }
    hide Untouched, Generation;
    if !CanCommit(s.core, s.txns[id]) {
      var place :| place in watches && watches[place] != Generation(s.core, place);
      assert !Untouched(initial, steps, id, place);
    }
  }

  ghost predicate Late(initial: Pairs, steps: seq<Step>, id: Id, place: Place, i: nat) {
    && place in Watched(initial, steps, id)
    && Watched(initial, steps, id)[place] <= i < |Committed(initial, steps)|
    && WritesTo(Committed(initial, steps)[i], place)
  }

  lemma {:induction false} OvertakenIs(initial: Pairs, steps: seq<Step>, id: Id)
    ensures Overtaken(initial, steps, id) <==> exists place, i: nat :: Late(initial, steps, id, place, i)
  {
    hide Run, Watched, WritesTo;
    if j: nat, i: nat :| Overtakes(initial, steps, id, j, i) {
      WatchedFirst(initial, steps, id, j, steps[j].place);
      assert Late(initial, steps, id, steps[j].place, i);
    }
    if place, i: nat :| Late(initial, steps, id, place, i) {
      var j := WatchedStep(initial, steps, id, place);
      assert Overtakes(initial, steps, id, j, i);
    }
  }

  /**
  The exact rule. In every run, the commit of an open transaction appends its log unless a log
  committed since one of its watched steps writes the place of that step; then nothing changes.
  */
  lemma {:induction false} CommitsExactly(initial: Pairs, steps: seq<Step>, id: Id)
    requires id in Run(Opened(initial), steps).txns
    ensures var s := Run(Opened(initial), steps);
      var s' := Run(Opened(initial), steps + [DoCommit(id)]);
      if Overtaken(initial, steps, id) then s' == s
      else s'.core.history == s.core.history + [s.txns[id].log] && s'.txns == s.txns - {id}
  {
    RunAppends(Opened(initial), steps, DoCommit(id));
    CanCommitIs(initial, steps, id);
    OvertakenIs(initial, steps, id);
    forall place ensures Untouched(initial, steps, id, place) <==> forall i: nat :: !Late(initial, steps, id, place, i) {
      UntouchedIs(initial, steps, id, place);
    }
    hide Overtaken, Untouched, Late, CanCommit;
    if Overtaken(initial, steps, id) {
      var place, i: nat :| Late(initial, steps, id, place, i);
      assert !Untouched(initial, steps, id, place);
    }
  }

  lemma {:induction false} UntouchedIs(initial: Pairs, steps: seq<Step>, id: Id, place: Place)
    ensures Untouched(initial, steps, id, place) <==> forall i: nat :: !Late(initial, steps, id, place, i)
  {
    hide Run, LastWrite, WritesTo;
    var history, watched := Committed(initial, steps), Watched(initial, steps, id);
    WatchedBounded(initial, steps, id);
    hide Watched;
    if place in watched {
      LastWriteSame(history, watched[place], place);
      forall i: nat | watched[place] <= i < |history|
        ensures Late(initial, steps, id, place, i) <==> WritesTo(history[i], place)
      {
      }
    }
  }

  /** A transaction that nobody commits beside always commits, whatever was committed before it. */
  lemma {:induction false} UndisturbedCommits(initial: Pairs, steps: seq<Step>, id: Id, more: seq<Step>)
    requires Committed(initial, steps) == Committed(initial, steps + [Begin(id)] + more)
    requires id in Run(Opened(initial), steps + [Begin(id)] + more).txns
    ensures var s := Run(Opened(initial), steps + [Begin(id)] + more);
      Committed(initial, steps + [Begin(id)] + more + [DoCommit(id)]) == s.core.history + [s.txns[id].log]
  {
    var all := steps + [Begin(id)] + more;
    CommitsExactly(initial, all, id);
    forall j: nat, i: nat ensures !Overtakes(initial, all, id, j, i) {
      if SinceBegin(all, id, j) {
        assert all[|steps|] == Begin(id);
        assert j > |steps|;
        HistoryGrows(initial, all[..j], |steps|);
        assert all[..j][..|steps|] == steps;
      }
    }
  }
}
