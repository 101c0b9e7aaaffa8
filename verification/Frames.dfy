/**
Transactions over several collections: what the calls inside some collections leave there does not
depend on the calls outside them, in the same transaction or in another.
*/
module Frames {
  import opened Store
  import opened Transactions

  /** The pairs of some collections. */
  function Within(pairs: Pairs, ours: set<int>): Pairs {
    map place | place in pairs && place.collection in ours :: pairs[place]
  }

  predicate Inside(update: Update, ours: set<int>) {
    forall i :: 0 <= i < |update.places| ==> update.places[i].collection in ours
  }

  /** The call writes nothing of ours; it may read it. */
  predicate Outside(call: Call, ours: set<int>) {
    match call
    case Modality(update) => forall i :: 0 <= i < |update.places| ==> update.places[i].collection !in ours
    case Plain(events) => forall i :: 0 <= i < |events| && events[i].Write? ==> events[i].place.collection !in ours
  }

  predicate Separate(calls: seq<Call>, ours: set<int>) {
    forall i :: 0 <= i < |calls| ==> (calls[i].Modality? && Inside(calls[i].update, ours)) || Outside(calls[i], ours)
  }

  /** The updates inside our collections, in order. */
  function UpdatesOf(calls: seq<Call>, ours: set<int>): seq<Update> {
    if calls == [] then [] else
    var n := |calls| - 1;
    UpdatesOf(calls[..n], ours) +
      if calls[n].Modality? && Inside(calls[n].update, ours) then [calls[n].update] else []
  }

  lemma {:induction false} WithinPut(pairs: Pairs, place: Place, content: Option<Bytes>, ours: set<int>)
    ensures Within(Put(pairs, place, content), ours) ==
      if place.collection in ours then Put(Within(pairs, ours), place, content) else Within(pairs, ours)
  {
  }

  lemma {:induction false} WithinPutAll(pairs: Pairs, places: seq<Place>, contents: seq<Option<Bytes>>, ours: set<int>, inside: bool)
    requires |places| == |contents| && forall i :: 0 <= i < |places| ==> (places[i].collection in ours <==> inside)
    ensures Within(PutAll(pairs, places, contents), ours) ==
      if inside then PutAll(Within(pairs, ours), places, contents) else Within(pairs, ours)
    decreases |places|
  {
    hide Within, Put;
    if places != [] {
      WithinPut(pairs, places[0], contents[0], ours);
      WithinPutAll(Put(pairs, places[0], contents[0]), places[1..], contents[1..], ours, inside);
    }
  }

  lemma {:induction false} InsideApplies(pairs: Pairs, update: Update, ours: set<int>)
    requires Inside(update, ours)
    ensures Within(Apply(pairs, update), ours) == Apply(Within(pairs, ours), update)
  {
    assert FindAll(pairs, update.places) == FindAll(Within(pairs, ours), update.places);
    WithinPutAll(pairs, update.places, update.Contents(FindAll(pairs, update.places)), ours, true);
  }

  lemma {:induction false} OutsideWrites(pairs: Pairs, events: Log, ours: set<int>)
    requires Outside(Plain(events), ours)
    ensures Within(Alone(pairs, events), ours) == Within(pairs, ours)
  {
    hide Within, Put;
    if events != [] {
      var n := |events| - 1;
      OutsideWrites(pairs, events[..n], ours);
      if events[n].Write? {
        WithinPut(Alone(pairs, events[..n]), events[n].place, events[n].content, ours);
      }
    }
  }

  lemma {:induction false} OutsideLeaves(pairs: Pairs, call: Call, ours: set<int>)
    requires Outside(call, ours)
    ensures Within(ApplyCall(pairs, call), ours) == Within(pairs, ours)
  {
    hide Within, Alone;
    match call
    case Modality(update) =>
      WithinPutAll(pairs, update.places, update.Contents(FindAll(pairs, update.places)), ours, false);
    case Plain(events) => OutsideWrites(pairs, events, ours);
  }

  lemma {:induction false} OursApply(pairs: Pairs, calls: seq<Call>, ours: set<int>)
    requires Separate(calls, ours)
    ensures Within(ApplyCalls(pairs, calls), ours) == ApplyAll(Within(pairs, ours), UpdatesOf(calls, ours))
  {
    hide Within, Inside, Outside, Apply, Alone;
    if calls != [] {
      var n := |calls| - 1;
      OursApply(pairs, calls[..n], ours);
      var before, updates := ApplyCalls(pairs, calls[..n]), UpdatesOf(calls[..n], ours);
      if calls[n].Modality? && Inside(calls[n].update, ours) {
        InsideApplies(before, calls[n].update, ours);
        assert (updates + [calls[n].update])[..|updates|] == updates;
      } else {
        OutsideLeaves(before, calls[n], ours);
        assert updates + [] == updates;
      }
    }
  }

  /**
  However transactions interleave, some collections hold what the committed updates inside them
  leave when they run alone, one after another, in commit order, whatever the transactions do to
  other collections.
  */
  lemma {:induction false} OthersLeaveOurs(initial: Pairs, steps: seq<Step>, groups: seq<seq<Call>>, ours: set<int>)
    requires AllCalls(Run(Opened(initial), steps).core.history, groups)
    requires Separate(Join(groups), ours)
    ensures Within(Run(Opened(initial), steps).core.pairs, ours) ==
      ApplyAll(Within(initial, ours), UpdatesOf(Join(groups), ours))
  {
    hide AllCalls, Run, Separate, Within, ApplyAll, UpdatesOf, Join;
    NoLostUpdates(initial, steps, groups);
    OursApply(initial, Join(groups), ours);
  }
}
