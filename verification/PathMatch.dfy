/**
Matching paths page by page (`full_scan_collection_w_predicate` over `full_scan_collection`).

The scan asks for several buckets at a time and stops as soon as it is given at most one: a
single bucket left over at the end is taken for the end of the collection and never looked at.
`Visited` is that scan and `MatchPage` the page it yields.
*/
module PathMatch {
  import opened Store
  import opened PathLayout
  import PathBucket
  import opened PathStore

  /** A collection is its buckets in the order of their ids. */
  datatype Bucket = Bucket(id: int, members: seq<Member>)

  type Predicate = Bytes -> bool

  ghost predicate ValidCollection(hash: Hash, bs: seq<Bucket>) {
    && (forall i, j :: 0 <= i < j < |bs| ==> bs[i].id < bs[j].id)
    && (forall i :: 0 <= i < |bs| ==> GoodBucket(hash, Place(0, bs[i].id), bs[i].members))
    && (forall i, k :: 0 <= i < |bs| && 0 <= k < |bs[i].members| ==> bs[i].members[k].key != [])
  }

  // ---- Everything there is to list ----

  function BucketMatches(ms: seq<Member>, pred: Predicate): seq<Bytes> {
    if ms == [] then [] else
    var last := ms[|ms| - 1].key;
    BucketMatches(ms[..|ms| - 1], pred) + if pred(last) then [last] else []
  }

  function Matches(bs: seq<Bucket>, pred: Predicate): seq<Bytes> {
    if bs == [] then [] else Matches(bs[..|bs| - 1], pred) + BucketMatches(bs[|bs| - 1].members, pred)
  }

  // ---- The scan ----

  /** The buckets a full scan calls back for, `ahead` at a time. */
  function Visited(bs: seq<Bucket>, ahead: nat): seq<Bucket>
    requires ahead >= 2
    decreases |bs|
  {
    if |bs| <= 1 then []
    else if |bs| <= ahead then bs
    else bs[..ahead] + Visited(bs[ahead..], ahead)
  }

  /** The scan misses the last bucket exactly when it is alone in the last batch. */
  lemma {:induction false} VisitedIs(bs: seq<Bucket>, ahead: nat)
    requires ahead >= 2
    ensures Visited(bs, ahead) == if |bs| % ahead == 1 then bs[..|bs| - 1] else bs
    decreases |bs|
  {
    if |bs| > ahead {
      VisitedIs(bs[ahead..], ahead);
      ModStep(|bs|, ahead);
      assert bs == bs[..ahead] + bs[ahead..];
      assert |bs| % ahead == 1 ==> bs[..|bs| - 1] == bs[..ahead] + bs[ahead..][..|bs| - ahead - 1];
    } else if |bs| == ahead {
      ModSelf(ahead);
    } else {
      ModSmall(|bs|, ahead);
    }
  }

  lemma {:induction false} ModStep(a: nat, b: nat)
    requires b >= 2 && a >= b
    ensures a % b == (a - b) % b
  {
    var q, r, q', r' := a / b, a % b, (a - b) / b, (a - b) % b;
    assert a == b * q + r && a - b == b * q' + r';
    var d := q - 1 - q';
    assert b * d == r' - r by {
      assert b * d == b * q - b - b * q';
    }
    Multiples(b, d);
  }

  lemma {:induction false} Multiples(b: nat, d: int)
    ensures d > 0 ==> b * d >= b
    ensures d < 0 ==> b * d <= -(b as int)
  {
  }

  lemma {:induction false} ModSelf(b: nat)
    requires b >= 2
    ensures b % b == 0
  {
  }

  lemma {:induction false} ModSmall(a: nat, b: nat)
    requires a < b
    ensures a % b == a
  {
  }

  function Ahead(limit: nat): nat {
    if limit < 2 then 2 else limit
  }

  // ---- The page ----

  /** The matches that come after `previous`; a search from the start has it behind already. */
  function Fresh(matches: seq<Bytes>, previous: Bytes, reached: bool): seq<Bytes> {
    if matches == [] then [] else
    var n := |matches| - 1;
    Fresh(matches[..n], previous, reached) +
      if matches[n] != previous && (reached || previous in matches[..n]) then [matches[n]] else []
  }

  function Take(paths: seq<Bytes>, limit: nat): seq<Bytes> {
    if |paths| <= limit then paths else paths[..limit]
  }

  /** The buckets at or after a given id. */
  function From(bs: seq<Bucket>, id: int): seq<Bucket> {
    if bs == [] || id <= bs[0].id then bs else From(bs[1..], id)
  }

  function Scanned(hash: Hash, bs: seq<Bucket>, previous: Bytes, limit: nat): seq<Bucket> {
    Visited(if previous == [] then bs else From(bs, hash(previous)), Ahead(limit))
  }

  function Page(hash: Hash, bs: seq<Bucket>, pred: Predicate, previous: Bytes, limit: nat): seq<Bytes> {
    Take(Fresh(Matches(Scanned(hash, bs, previous, limit), pred), previous, previous == []), limit)
  }

  lemma {:induction false} FreshAppends(matches: seq<Bytes>, path: Bytes, previous: Bytes, reached: bool)
    ensures Fresh(matches + [path], previous, reached) == Fresh(matches, previous, reached) +
      if path != previous && (reached || previous in matches) then [path] else []
  {
    assert (matches + [path])[..|matches|] == matches;
  }

  lemma {:induction false} FreshGrows(a: seq<Bytes>, b: seq<Bytes>, previous: Bytes, reached: bool)
    ensures Fresh(a, previous, reached) <= Fresh(a + b, previous, reached)
    decreases |b|
  {
    if b == [] {
      assert a + b == a;
    } else {
      var n := |b| - 1;
      FreshGrows(a, b[..n], previous, reached);
      FreshAppends(a + b[..n], b[n], previous, reached);
      assert a + b == a + b[..n] + [b[n]];
    }
  }

  lemma {:induction false} MatchesConcat(a: seq<Bucket>, b: seq<Bucket>, pred: Predicate)
    ensures Matches(a + b, pred) == Matches(a, pred) + Matches(b, pred)
    decreases |b|
  {
    hide BucketMatches, Matches;
    if b == [] {
      assert a + b == a;
      NoMatches(b, pred);
    } else {
      var low, last := b[..|b| - 1], b[|b| - 1];
      assert b == low + [last] && a + b == a + low + [last];
      MatchesLast(low, last, pred);
      MatchesLast(a + low, last, pred);
      MatchesConcat(a, low, pred);
    }
  }

  lemma {:induction false} NoMatches(bs: seq<Bucket>, pred: Predicate)
    requires bs == []
    ensures Matches(bs, pred) == []
  {
  }


  /** One callback: the members of one bucket, in order. */
  method ScanBucket(ms: seq<Member>, pred: Predicate, previous: Bytes, limit: nat,
                    reached: bool, paths: seq<Bytes>, ghost seen: seq<Bytes>)
    returns (reached': bool, paths': seq<Bytes>)
    requires reached == (previous == [] || previous in seen)
    requires paths == Take(Fresh(seen, previous, previous == []), limit)
    ensures reached' == (previous == [] || previous in seen + BucketMatches(ms, pred))
    ensures paths' == Take(Fresh(seen + BucketMatches(ms, pred), previous, previous == []), limit)
  {
    hide Fresh;
    reached', paths' := reached, paths;
    assert seen + BucketMatches([], pred) == seen;
    for i := 0 to |ms|
      invariant reached' == (previous == [] || previous in seen + BucketMatches(ms[..i], pred))
      invariant paths' == Take(Fresh(seen + BucketMatches(ms[..i], pred), previous, previous == []), limit)
    {
      ghost var before := seen + BucketMatches(ms[..i], pred);
      var key := ms[i].key;
      assert ms[..i + 1][..i] == ms[..i];
      FreshAppends(before, key, previous, previous == []);
      if !pred(key) {
        assert seen + BucketMatches(ms[..i + 1], pred) == before;
        continue;
      }
      assert seen + BucketMatches(ms[..i + 1], pred) == before + [key];
      if key == previous {
        reached' := true;
        continue;
      }
      if !reached' || |paths'| >= limit {
        continue;
      }
      paths' := paths' + [key];
    }
    assert ms[..|ms|] == ms;
  }

  /** What a scan has to show for the buckets it has called back for. */
  ghost predicate Progress(done: seq<Bucket>, pred: Predicate, previous: Bytes, limit: nat, reached: bool, paths: seq<Bytes>) {
    && reached == (previous == [] || previous in Matches(done, pred))
    && paths == Take(Fresh(Matches(done, pred), previous, previous == []), limit)
  }

  /** One batch of buckets; says whether to go on. */
  method ScanBatch(batch: seq<Bucket>, pred: Predicate, previous: Bytes, limit: nat,
                   reached: bool, paths: seq<Bytes>, ghost done: seq<Bucket>)
    returns (reached': bool, paths': seq<Bytes>, full: bool, ghost k: nat)
    requires Progress(done, pred, previous, limit, reached, paths)
    ensures k <= |batch| && (full || k == |batch|)
    ensures Progress(done + batch[..k], pred, previous, limit, reached', paths')
    ensures full ==> |paths'| >= limit
  {
    hide Fresh, Matches;
    reached', paths', full, k := reached, paths, false, 0;
    assert done + batch[..0] == done;
    for i := 0 to |batch|
      invariant Progress(done + batch[..i], pred, previous, limit, reached', paths')
    {
      reached', paths' := ScanBucket(batch[i].members, pred, previous, limit, reached', paths',
                                     Matches(done + batch[..i], pred));
      MatchesLast(done + batch[..i], batch[i], pred);
      assert done + batch[..i] + [batch[i]] == done + batch[..i + 1];
      k := i + 1;
      if |paths'| >= limit {
        full := true;
        return;
      }
    }
    k := |batch|;
  }

  /** The scan loop: batches of buckets until a batch of at most one, or until the page is full. */
  method MatchPage(hash: Hash, bs: seq<Bucket>, pred: Predicate, previous: Bytes, limit: nat)
    returns (paths: seq<Bytes>)
    ensures paths == Page(hash, bs, pred, previous, limit)
  {
    hide Fresh, Matches, Progress, Visited, From, Take;
    var reached, ahead := previous == [], Ahead(limit);
    var rest := if previous == [] then bs else From(bs, hash(previous));
    ghost var all := Visited(rest, ahead);
    ghost var done: seq<Bucket> := [];
    paths := [];
    NothingSeen(pred, previous, limit);
    while |rest| > 1
      invariant all == done + Visited(rest, ahead)
      invariant Progress(done, pred, previous, limit, reached, paths)
      decreases |rest|
    {
      var batch := if |rest| <= ahead then rest else rest[..ahead];
      ghost var k;
      var full;
      VisitedBatch(rest, ahead);
      ghost var later := Visited(rest[|batch|..], ahead);
      assert rest[..|batch|] == batch;
      reached, paths, full, k := ScanBatch(batch, pred, previous, limit, reached, paths, done);
      if full {
        Regroup(done, batch, later, k);
        StoppedEarly(done + batch[..k], batch[k..] + later, pred, previous, limit, reached, paths);
        return;
      }
      Regroup(done, batch, later, k);
      done := done + batch;
      rest := rest[|batch|..];
    }
    NothingLeft(rest, ahead);
    assert all == done;
    PageDone(done, pred, previous, limit, reached, paths);
  }

  lemma {:induction false} Regroup(done: seq<Bucket>, batch: seq<Bucket>, later: seq<Bucket>, k: nat)
    requires k <= |batch|
    ensures done + (batch + later) == done + batch[..k] + (batch[k..] + later)
    ensures k == |batch| ==> batch[..k] == batch && done + (batch + later) == done + batch + later
  {
  }

  lemma {:induction false} NothingLeft(rest: seq<Bucket>, ahead: nat)
    requires ahead >= 2 && |rest| <= 1
    ensures Visited(rest, ahead) == []
  {
  }

  lemma {:induction false} PageDone(done: seq<Bucket>, pred: Predicate, previous: Bytes, limit: nat, reached: bool,
                                    paths: seq<Bytes>)
    requires Progress(done, pred, previous, limit, reached, paths)
    ensures paths == Take(Fresh(Matches(done, pred), previous, previous == []), limit)
  {
  }

  lemma {:induction false} VisitedBatch(rest: seq<Bucket>, ahead: nat)
    requires ahead >= 2 && |rest| > 1
    ensures var n := if |rest| <= ahead then |rest| else ahead;
      Visited(rest, ahead) == rest[..n] + Visited(rest[n..], ahead)
  {
    if |rest| <= ahead {
      assert rest[..|rest|] == rest && rest[|rest|..] == [];
    }
  }

  lemma {:induction false} NothingSeen(pred: Predicate, previous: Bytes, limit: nat)
    ensures Progress([], pred, previous, limit, previous == [], [])
  {
  }

  lemma {:induction false} MatchesLast(bs: seq<Bucket>, b: Bucket, pred: Predicate)
    ensures Matches(bs + [b], pred) == Matches(bs, pred) + BucketMatches(b.members, pred)
  {
    assert (bs + [b])[..|bs|] == bs;
  }

  lemma {:induction false} StoppedEarly(done: seq<Bucket>, more: seq<Bucket>, pred: Predicate, previous: Bytes, limit: nat,
                                        reached: bool, paths: seq<Bytes>)
    requires Progress(done, pred, previous, limit, reached, paths) && |paths| >= limit
    ensures Take(Fresh(Matches(done + more, pred), previous, previous == []), limit) == paths
  {
    hide Matches, Fresh;
    MatchesConcat(done, more, pred);
    FreshGrows(Matches(done, pred), Matches(more, pred), previous, previous == []);
  }
}
