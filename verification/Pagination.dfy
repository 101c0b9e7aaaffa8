/**
Paginated matches, exactly: which stretch of the matches one page lists, what a caller who keeps
asking gets altogether, and when that is everything.
*/
module Pagination {
  import opened Store
  import opened PathLayout
  import PathBucket
  import opened PathStore
  import opened PathMatch

  // ---- All matches are distinct and know their bucket ----

  predicate NoRepeats(paths: seq<Bytes>) {
    forall i, j :: 0 <= i < j < |paths| ==> paths[i] != paths[j]
  }

  ghost predicate HasKey(ms: seq<Member>, path: Bytes) {
    exists k :: 0 <= k < |ms| && ms[k].key == path
  }

  ghost predicate InBucket(b: Bucket, path: Bytes) {
    HasKey(b.members, path)
  }

  lemma {:induction false} HasKeyStep(ms: seq<Member>, path: Bytes)
    requires ms != []
    ensures HasKey(ms, path) <==> HasKey(ms[..|ms| - 1], path) || ms[|ms| - 1].key == path
  {
    var n := |ms| - 1;
    if HasKey(ms[..n], path) {
      var k :| 0 <= k < n && ms[..n][k].key == path;
      assert ms[k].key == path;
    }
    if HasKey(ms, path) && ms[n].key != path {
      var k :| 0 <= k < |ms| && ms[k].key == path;
      assert ms[..n][k].key == path;
    }
  }

  lemma {:induction false} BucketMatchesMean(ms: seq<Member>, pred: Predicate)
    ensures forall path :: path in BucketMatches(ms, pred) <==> pred(path) && HasKey(ms, path)
    ensures Distinct(ms) ==> NoRepeats(BucketMatches(ms, pred))
  {
    hide HasKey;
    if ms == [] {
      forall path ensures !HasKey(ms, path) { NoKeys(ms, path); }
    } else {
      var n := |ms| - 1;
      var before := BucketMatches(ms[..n], pred);
      BucketMatchesMean(ms[..n], pred);
      forall path ensures HasKey(ms, path) <==> HasKey(ms[..n], path) || ms[n].key == path {
        HasKeyStep(ms, path);
      }
      if Distinct(ms) {
        assert !HasKey(ms[..n], ms[n].key) by { LastIsNew(ms); }
        forall i | 0 <= i < |before| ensures before[i] != ms[n].key {
          assert before[i] in before;
        }
      }
    }
  }

  lemma {:induction false} NoKeys(ms: seq<Member>, path: Bytes)
    requires ms == []
    ensures !HasKey(ms, path)
  {
  }

  lemma {:induction false} LastIsNew(ms: seq<Member>)
    requires Distinct(ms) && ms != []
    ensures !HasKey(ms[..|ms| - 1], ms[|ms| - 1].key)
  {
  }

  lemma {:induction false} MembersHash(hash: Hash, bs: seq<Bucket>, i: nat, path: Bytes)
    requires ValidCollection(hash, bs) && i < |bs| && InBucket(bs[i], path)
    ensures hash(path) == bs[i].id && path != []
  {
    var k :| 0 <= k < |bs[i].members| && bs[i].members[k].key == path;
    assert GoodBucket(hash, Place(0, bs[i].id), bs[i].members);
  }

  lemma {:induction false} ValidPrefix(hash: Hash, bs: seq<Bucket>, n: nat)
    requires ValidCollection(hash, bs) && n <= |bs|
    ensures ValidCollection(hash, bs[..n]) && ValidCollection(hash, bs[n..])
  {
  }

  ghost predicate Stored(bs: seq<Bucket>, path: Bytes) {
    exists i :: 0 <= i < |bs| && InBucket(bs[i], path)
  }

  /** Every match lies in some bucket; in front of bucket `i` only smaller ids were listed. */
  lemma {:induction false} MatchesMean(hash: Hash, bs: seq<Bucket>, pred: Predicate)
    requires ValidCollection(hash, bs)
    ensures forall path :: path in Matches(bs, pred) <==> pred(path) && exists i :: 0 <= i < |bs| && InBucket(bs[i], path)
    ensures NoRepeats(Matches(bs, pred))
  {
    hide Matches, InBucket, NoRepeats, ValidCollection;
    MatchesAre(hash, bs, pred);
    forall path ensures Stored(bs, path) <==> exists i :: 0 <= i < |bs| && InBucket(bs[i], path) {
    }
  }

  lemma {:induction false} MatchesAre(hash: Hash, bs: seq<Bucket>, pred: Predicate)
    requires ValidCollection(hash, bs)
    ensures forall path :: path in Matches(bs, pred) <==> pred(path) && Stored(bs, path)
    ensures NoRepeats(Matches(bs, pred))
  {
    if bs != [] {
      var n := |bs| - 1;
      var low, high := Matches(bs[..n], pred), BucketMatches(bs[n].members, pred);
      assert GoodBucket(hash, Place(0, bs[n].id), bs[n].members);
      hide ValidCollection, BucketMatches, Stored, HasKey, NoRepeats;
      ValidPrefix(hash, bs, n);
      MatchesAre(hash, bs[..n], pred);
      BucketMatchesMean(bs[n].members, pred);
      forall path ensures Stored(bs, path) <==> InBucket(bs[n], path) || Stored(bs[..n], path) {
        StoredLast(bs, path);
      }
      forall i, j | 0 <= i < |low| && 0 <= j < |high| ensures low[i] != high[j] {
        assert low[i] in low && high[j] in high;
        StoredOnce(hash, bs, low[i], high[j]);
      }
      TwoParts(low, high);
    }
  }

  lemma {:induction false} StoredLast(bs: seq<Bucket>, path: Bytes)
    requires bs != []
    ensures var n := |bs| - 1; Stored(bs, path) <==> InBucket(bs[n], path) || Stored(bs[..n], path)
  {
    hide InBucket;
    assert forall i :: 0 <= i < |bs| - 1 ==> bs[..|bs| - 1][i] == bs[i];
  }

  /** What the last bucket holds no other holds. */
  lemma {:induction false} StoredOnce(hash: Hash, bs: seq<Bucket>, low: Bytes, high: Bytes)
    requires ValidCollection(hash, bs) && bs != []
    requires Stored(bs[..|bs| - 1], low) && InBucket(bs[|bs| - 1], high)
    ensures low != high
  {
    hide ValidCollection;
    var n := |bs| - 1;
    var k :| 0 <= k < n && InBucket(bs[..n][k], low);
    MembersHash(hash, bs, k, low);
    MembersHash(hash, bs, n, high);
    IdsDiffer(hash, bs, k, n);
  }

  lemma {:induction false} IdsDiffer(hash: Hash, bs: seq<Bucket>, i: nat, j: nat)
    requires ValidCollection(hash, bs) && i < j < |bs|
    ensures bs[i].id < bs[j].id
  {
  }

  lemma {:induction false} TwoParts(low: seq<Bytes>, high: seq<Bytes>)
    requires NoRepeats(low) && NoRepeats(high)
    requires forall i, j :: 0 <= i < |low| && 0 <= j < |high| ==> low[i] != high[j]
    ensures NoRepeats(low + high)
  {
  }

  /** The bucket of the match number `q`. */
  lemma {:induction false} Locate(hash: Hash, bs: seq<Bucket>, pred: Predicate, q: nat) returns (b: nat)
    requires ValidCollection(hash, bs) && q < |Matches(bs, pred)|
    ensures b < |bs| && |Matches(bs[..b], pred)| <= q < |Matches(bs[..b + 1], pred)|
    ensures hash(Matches(bs, pred)[q]) == bs[b].id
  {
    hide BucketMatches, GoodBucket, ValidCollection;
    var n := |bs| - 1;
    ValidPrefix(hash, bs, n);
    if q < |Matches(bs[..n], pred)| {
      b := Locate(hash, bs[..n], pred, q);
      assert bs[..n][..b] == bs[..b] && bs[..n][..b + 1] == bs[..b + 1];
    } else {
      b := n;
      var path := Matches(bs, pred)[q];
      BucketMatchesMean(bs[n].members, pred);
      assert path in BucketMatches(bs[n].members, pred);
      assert InBucket(bs[n], path);
      MembersHash(hash, bs, n, path);
      assert bs[..n + 1] == bs;
    }
  }

  lemma {:induction false} FromIs(hash: Hash, bs: seq<Bucket>, b: nat)
    requires ValidCollection(hash, bs) && b < |bs|
    ensures From(bs, bs[b].id) == bs[b..]
    decreases b
  {
    if b > 0 {
      ValidPrefix(hash, bs, 1);
      IdsDiffer(hash, bs, 0, b);
      FromIs(hash, bs[1..], b - 1);
      assert bs[1..][b - 1..] == bs[b..];
    } else {
      assert bs[0..] == bs;
    }
  }

  // ---- One page, exactly ----

  lemma {:induction false} FreshAll(matches: seq<Bytes>, previous: Bytes)
    requires previous !in matches
    ensures Fresh(matches, previous, true) == matches
    ensures Fresh(matches, previous, false) == []
  {
    hide Fresh;
    FreshLast(matches, previous, true);
    FreshLast(matches, previous, false);
    if matches != [] {
      FreshAll(matches[..|matches| - 1], previous);
    }
  }

  lemma {:induction false} FreshAfter(matches: seq<Bytes>, k: nat)
    requires NoRepeats(matches) && k < |matches|
    ensures Fresh(matches, matches[k], false) == matches[k + 1..]
    decreases |matches|
  {
    hide Fresh, NoRepeats;
    var n := |matches| - 1;
    NoRepeatsBefore(matches, k);
    FreshLast(matches, matches[k], false);
    if k == n {
      FreshAll(matches[..n], matches[n]);
    } else {
      FreshAfter(matches[..n], k);
      assert matches[..n][k] == matches[k];
      assert matches[..n][k + 1..] + [matches[n]] == matches[k + 1..];
    }
  }

  lemma {:induction false} FreshLast(matches: seq<Bytes>, previous: Bytes, reached: bool)
    ensures matches == [] ==> Fresh(matches, previous, reached) == []
    ensures matches != [] ==>
      var n := |matches| - 1;
      Fresh(matches, previous, reached) == Fresh(matches[..n], previous, reached) +
        if matches[n] != previous && (reached || previous in matches[..n]) then [matches[n]] else []
  {
  }

  lemma {:induction false} NoRepeatsBefore(matches: seq<Bytes>, k: nat)
    requires NoRepeats(matches) && k < |matches|
    ensures var n := |matches| - 1;
      && NoRepeats(matches[..n]) && (k == n ==> matches[n] !in matches[..n])
      && (k < n ==> matches[k] in matches[..n] && matches[n] != matches[k])
  {
    var n := |matches| - 1;
    if k < n {
      assert matches[..n][k] == matches[k];
    }
  }

  /** The matches outside the last bucket. */
  function Sure(bs: seq<Bucket>, pred: Predicate): nat {
    if bs == [] then 0 else |Matches(bs[..|bs| - 1], pred)|
  }

  /** The path a caller passes on after `q` matches. */
  function Previous(matches: seq<Bytes>, q: nat): Bytes
    requires q <= |matches|
  {
    if q == 0 then [] else matches[q - 1]
  }

  /** The buckets the next page scans: all of them, or those from the bucket of the last match on. */
  function Remaining(hash: Hash, bs: seq<Bucket>, matches: seq<Bytes>, q: nat): nat
    requires q <= |matches|
  {
    if q == 0 then |bs| else |From(bs, hash(matches[q - 1]))|
  }

  function Max(a: nat, b: nat): nat { if a <= b then b else a }

  /** How many matches the next page can see at all. */
  function Visible(hash: Hash, bs: seq<Bucket>, pred: Predicate, limit: nat, q: nat): nat
    requires q <= |Matches(bs, pred)|
  {
    if Remaining(hash, bs, Matches(bs, pred), q) % Max(limit, 2) == 1 then Sure(bs, pred) else |Matches(bs, pred)|
  }

  /** The matches of the buckets from `b` on, without the last bucket if the scan misses it. */
  lemma {:induction false} SuffixMatches(bs: seq<Bucket>, pred: Predicate, b: nat)
    requires b < |bs|
    ensures var ms, o := Matches(bs, pred), |Matches(bs[..b], pred)|;
      && o <= Sure(bs, pred) <= |ms|
      && Matches(bs[b..], pred) == ms[o..]
      && Matches(bs[b..][..|bs| - b - 1], pred) == ms[o..Sure(bs, pred)]
  {
    hide Matches;
    var n := |bs| - 1;
    assert bs == bs[..b] + bs[b..] && bs[..n] == bs[..b] + bs[b..n] && bs[b..][..n - b] == bs[b..n];
    assert bs == bs[..n] + bs[n..];
    MatchesConcat(bs[..b], bs[b..], pred);
    MatchesConcat(bs[..b], bs[b..n], pred);
    MatchesConcat(bs[..n], bs[n..], pred);
  }

  lemma {:induction false} FirstPageIs(hash: Hash, bs: seq<Bucket>, pred: Predicate, limit: nat)
    requires ValidCollection(hash, bs)
    ensures var ms, v := Matches(bs, pred), Visible(hash, bs, pred, limit, 0);
      v <= |ms| && Page(hash, bs, pred, [], limit) == if v <= 0 then [] else Take(ms[0..v], limit)
  {
    hide Matches, Visited, Fresh, NoRepeats, Take, ValidCollection;
    var ms, v, ahead := Matches(bs, pred), Visible(hash, bs, pred, limit, 0), Ahead(limit);
    VisitedIs(bs, ahead);
    NoBuckets(pred);
    TakeNone(limit);
    if bs == [] {
      FreshAll([], []);
      ModSmall(0, ahead);
    } else {
      SuffixMatches(bs, pred, 0);
      assert bs[..0] == [] && bs[0..] == bs && ms[0..] == ms;
      assert Matches(Scanned(hash, bs, [], limit), pred) == ms[0..v];
      forall path | path in ms[0..v] ensures path != [] {
        assert path in ms;
        NotEmpty(hash, bs, pred, path);
      }
      FreshAll(ms[0..v], []);
    }
  }

  lemma {:induction false} NextPageIs(hash: Hash, bs: seq<Bucket>, pred: Predicate, limit: nat, q: nat)
    requires ValidCollection(hash, bs) && 0 < q <= |Matches(bs, pred)|
    ensures var ms, v := Matches(bs, pred), Visible(hash, bs, pred, limit, q);
      v <= |ms| && Page(hash, bs, pred, ms[q - 1], limit) == if v <= q then [] else Take(ms[q..v], limit)
  {
    hide Matches, Visited, From, Fresh, NoRepeats, Take, ValidCollection;
    var ms, v, ahead := Matches(bs, pred), Visible(hash, bs, pred, limit, q), Ahead(limit);
    MatchesMean(hash, bs, pred);
    NotEmpty(hash, bs, pred, ms[q - 1]);
    var b := Locate(hash, bs, pred, q - 1);
    FromIs(hash, bs, b);
    VisitedIs(bs[b..], ahead);
    SuffixMatches(bs, pred, b);
    assert Matches(Scanned(hash, bs, ms[q - 1], limit), pred) == ms[|Matches(bs[..b], pred)|..v] by {
      assert Scanned(hash, bs, ms[q - 1], limit) == Visited(bs[b..], ahead);
      assert |bs[b..]| == Remaining(hash, bs, ms, q);
    }
    PageAfter(ms, |Matches(bs[..b], pred)|, q, v, limit);
  }

  /** The page after the first `q` matches is the next stretch of what the scan can see. */
  lemma {:induction false} PageIs(hash: Hash, bs: seq<Bucket>, pred: Predicate, limit: nat, q: nat)
    requires ValidCollection(hash, bs) && q <= |Matches(bs, pred)|
    ensures var ms, v := Matches(bs, pred), Visible(hash, bs, pred, limit, q);
      && v <= |ms|
      && Page(hash, bs, pred, Previous(ms, q), limit) == if v <= q then [] else Take(ms[q..v], limit)
  {
    hide Matches, Page, Take, ValidCollection;
    if q == 0 {
      FirstPageIs(hash, bs, pred, limit);
    } else {
      NextPageIs(hash, bs, pred, limit, q);
    }
  }

  lemma {:induction false} NotEmpty(hash: Hash, bs: seq<Bucket>, pred: Predicate, path: Bytes)
    requires ValidCollection(hash, bs) && path in Matches(bs, pred)
    ensures path != []
  {
    hide ValidCollection, Matches;
    MatchesMean(hash, bs, pred);
    var i :| 0 <= i < |bs| && InBucket(bs[i], path);
    MembersHash(hash, bs, i, path);
  }

  lemma {:induction false} NoBuckets(pred: Predicate)
    ensures Matches([], pred) == []
  {
  }

  lemma {:induction false} TakeNone(limit: nat)
    ensures Take([], limit) == []
  {
  }

  lemma {:induction false} StretchHas(ms: seq<Bytes>, o: nat, k: nat, v: nat)
    requires NoRepeats(ms) && o <= k < |ms| && o <= v <= |ms|
    ensures NoRepeats(ms[o..v])
    ensures if k < v then ms[o..v][k - o] == ms[k] && ms[o..v][k + 1 - o..] == ms[k + 1..v] else ms[k] !in ms[o..v]
  {
    forall j | 0 <= j < |ms[o..v]| ensures ms[o..v][j] == ms[o + j] {
    }
  }

  lemma {:induction false} PageAfter(ms: seq<Bytes>, o: nat, q: nat, v: nat, limit: nat)
    requires NoRepeats(ms) && o <= q - 1 < |ms| && o <= v <= |ms|
    ensures Take(Fresh(ms[o..v], ms[q - 1], false), limit) == if v <= q then [] else Take(ms[q..v], limit)
  {
    hide NoRepeats, Fresh;
    StretchHas(ms, o, q - 1, v);
    if q - 1 < v {
      FreshAfter(ms[o..v], q - 1 - o);
    } else {
      FreshAll(ms[o..v], ms[q - 1]);
    }
  }

  // ---- Pagination, exactly ----

  /** Where the caller's last full stretch inside the sure matches begins. */
  function LastFull(sure: nat, limit: nat): (q: nat)
    requires limit >= 1
    ensures q <= sure < q + limit
  {
    if sure < limit then 0 else limit + LastFull(sure - limit, limit)
  }

  /** The last bucket, too, can be seen by the page after `q` matches. */
  predicate Sees(hash: Hash, bs: seq<Bucket>, pred: Predicate, limit: nat, q: nat)
    requires q <= |Matches(bs, pred)|
  {
    Remaining(hash, bs, Matches(bs, pred), q) % Max(limit, 2) != 1
  }

  function Min(a: nat, b: nat): nat { if a <= b then a else b }

  /** How many matches the pages list altogether. */
  function Listed(hash: Hash, bs: seq<Bucket>, pred: Predicate, limit: nat): nat
    requires limit >= 1 && Sure(bs, pred) <= |Matches(bs, pred)|
  {
    var total, sure := |Matches(bs, pred)|, Sure(bs, pred);
    var q := LastFull(sure, limit);
    if sure == total then total
    else if Sees(hash, bs, pred, limit, q) then Min(q + limit, total)
    else if q < sure && Sees(hash, bs, pred, limit, sure) then Min(sure + limit, total)
    else sure
  }

  /**
  The last bucket has no match, or is seen, and fits, where the page runs out of the others: that is
  the page after the last full one, or the page after all of the others.
  */
  predicate ListsAll(hash: Hash, bs: seq<Bucket>, pred: Predicate, limit: nat)
    requires limit >= 1
  {
    var total, sure := |Matches(bs, pred)|, Sure(bs, pred);
    var q := LastFull(sure, limit);
    || sure == total
    || (Sees(hash, bs, pred, limit, q) && total <= q + limit)
    || (!Sees(hash, bs, pred, limit, q) && q < sure && Sees(hash, bs, pred, limit, sure) && total <= sure + limit)
  }

  lemma {:induction false} SureIsFewer(bs: seq<Bucket>, pred: Predicate)
    ensures Sure(bs, pred) <= |Matches(bs, pred)|
  {
  }

  /** A page that starts in the last bucket sees nothing. */
  lemma {:induction false} LastBucketIsBlind(hash: Hash, bs: seq<Bucket>, pred: Predicate, limit: nat, q: nat)
    requires ValidCollection(hash, bs) && Sure(bs, pred) < q <= |Matches(bs, pred)|
    ensures !Sees(hash, bs, pred, limit, q)
  {
    hide Matches, From, ValidCollection;
    var b := Locate(hash, bs, pred, q - 1);
    FromIs(hash, bs, b);
    if b + 1 < |bs| {
      assert bs[..|bs| - 1][..b + 1] == bs[..b + 1];
      PrefixFewer(bs[..|bs| - 1], pred, b + 1);
    }
    ModSmall(1, Ahead(limit));
  }

  lemma {:induction false} PrefixFewer(bs: seq<Bucket>, pred: Predicate, n: nat)
    requires n <= |bs|
    ensures |Matches(bs[..n], pred)| <= |Matches(bs, pred)|
  {
    hide Matches;
    MatchesConcat(bs[..n], bs[n..], pred);
    assert bs == bs[..n] + bs[n..];
  }

  /** Where a caller who has listed `q` matches ends up. */
  function Reach(hash: Hash, bs: seq<Bucket>, pred: Predicate, limit: nat, q: nat): nat
    requires limit >= 1 && q <= |Matches(bs, pred)| && Sure(bs, pred) <= |Matches(bs, pred)|
    decreases |Matches(bs, pred)| - q
  {
    var v := Visible(hash, bs, pred, limit, q);
    if v <= q then q else Reach(hash, bs, pred, limit, Min(q + limit, v))
  }

  /**
  A caller who keeps asking with the last path listed so far, until a page is empty. No path is
  repeated and none before the last bucket is left out; exactly under `ListsAll` none is left out.
  */
  method MatchAll(hash: Hash, bs: seq<Bucket>, pred: Predicate, limit: nat) returns (paths: seq<Bytes>)
    requires ValidCollection(hash, bs) && limit >= 1
    ensures var ms, n := Matches(bs, pred), Listed(hash, bs, pred, limit); n <= |ms| && paths == ms[..n]
    ensures NoRepeats(paths) && Sure(bs, pred) <= |paths|
    ensures paths == Matches(bs, pred) <==> ListsAll(hash, bs, pred, limit)
  {
    hide Matches, Page, Reach, Listed, ValidCollection, Visible, ListsAll, NoRepeats;
    ghost var ms := Matches(bs, pred);
    SureIsFewer(bs, pred);
    ReachIsListed(hash, bs, pred, limit);
    paths := [];
    var page := MatchPage(hash, bs, pred, [], limit);
    PageIs(hash, bs, pred, limit, 0);
    while page != []
      invariant |paths| <= |ms| && paths == ms[..|paths|]
      invariant page == Page(hash, bs, pred, Previous(ms, |paths|), limit)
      invariant Reach(hash, bs, pred, limit, |paths|) == Reach(hash, bs, pred, limit, 0)
      decreases |ms| - |paths|
    {
      ghost var q := |paths|;
      PageIs(hash, bs, pred, limit, q);
      ReachStep(hash, bs, pred, limit, q);
      paths := paths + page;
      assert paths == ms[..|paths|];
      page := MatchPage(hash, bs, pred, paths[|paths| - 1], limit);
    }
    PageIs(hash, bs, pred, limit, |paths|);
    ReachStep(hash, bs, pred, limit, |paths|);
    PaginationIsExact(hash, bs, pred, limit);
  }

  lemma {:induction false} ReachStep(hash: Hash, bs: seq<Bucket>, pred: Predicate, limit: nat, q: nat)
    requires limit >= 1 && q <= |Matches(bs, pred)| && Sure(bs, pred) <= |Matches(bs, pred)|
    ensures var v := Visible(hash, bs, pred, limit, q);
      && v <= |Matches(bs, pred)|
      && Reach(hash, bs, pred, limit, q) == if v <= q then q else Reach(hash, bs, pred, limit, Min(q + limit, v))
  {
  }

  /** Full pages never depend on the last bucket. */
  lemma {:induction false} ReachFull(hash: Hash, bs: seq<Bucket>, pred: Predicate, limit: nat, q: nat)
    requires limit >= 1 && q <= Sure(bs, pred) <= |Matches(bs, pred)|
    ensures Reach(hash, bs, pred, limit, q) == Reach(hash, bs, pred, limit, q + LastFull(Sure(bs, pred) - q, limit))
    decreases Sure(bs, pred) - q
  {
    hide Matches, Reach, Remaining;
    if q + limit <= Sure(bs, pred) {
      ReachStep(hash, bs, pred, limit, q);
      ReachFull(hash, bs, pred, limit, q + limit);
    }
  }

  lemma {:induction false} ReachIsListed(hash: Hash, bs: seq<Bucket>, pred: Predicate, limit: nat)
    requires ValidCollection(hash, bs) && limit >= 1
    requires Sure(bs, pred) <= |Matches(bs, pred)|
    ensures Reach(hash, bs, pred, limit, 0) == Listed(hash, bs, pred, limit)
  {
    hide Matches, Reach, Remaining, ValidCollection, Sure, LastFull;
    var total, sure := |Matches(bs, pred)|, Sure(bs, pred);
    var q := LastFull(sure, limit);
    ReachFull(hash, bs, pred, limit, 0);
    ReachStep(hash, bs, pred, limit, q);
    if sure == total {
      ReachStep(hash, bs, pred, limit, sure);
    } else if Sees(hash, bs, pred, limit, q) {
      var next := Min(q + limit, total);
      LastBucketIsBlind(hash, bs, pred, limit, next);
      ReachStep(hash, bs, pred, limit, next);
    } else {
      ReachStep(hash, bs, pred, limit, sure);
      if q < sure && Sees(hash, bs, pred, limit, sure) {
        var next := Min(sure + limit, total);
        LastBucketIsBlind(hash, bs, pred, limit, next);
        ReachStep(hash, bs, pred, limit, next);
      }
    }
  }

  lemma {:induction false} PaginationIsExact(hash: Hash, bs: seq<Bucket>, pred: Predicate, limit: nat)
    requires ValidCollection(hash, bs) && limit >= 1
    ensures Sure(bs, pred) <= |Matches(bs, pred)|
    ensures var total, listed := |Matches(bs, pred)|, Listed(hash, bs, pred, limit);
      && Sure(bs, pred) <= listed <= total
      && NoRepeats(Matches(bs, pred)[..listed])
      && (listed == total <==> ListsAll(hash, bs, pred, limit))
  {
    hide Matches, ValidCollection, Sees, LastFull;
    SureIsFewer(bs, pred);
    MatchesMean(hash, bs, pred);
  }

  /** A collection whose paths all share one bucket is never matched at all. */
  lemma {:induction false} OneBucketListsNothing(hash: Hash, b: Bucket, pred: Predicate, limit: nat)
    requires ValidCollection(hash, [b]) && limit >= 1
    ensures Page(hash, [b], pred, [], limit) == []
    ensures Sure([b], pred) <= |Matches([b], pred)| && Listed(hash, [b], pred, limit) == 0
  {
    SureIsFewer([b], pred);
    assert [b][..0] == [];
    FirstPageIs(hash, [b], pred, limit);
    ModSmall(1, Ahead(limit));
  }

  // ---- The collection is the store's ----

  ghost predicate IsCollection(pairs: Pairs, collection: int, bs: seq<Bucket>) {
    && (forall i, j :: 0 <= i < j < |bs| ==> bs[i].id < bs[j].id)
    && (forall i :: 0 <= i < |bs| ==>
          Place(collection, bs[i].id) in pairs && bs[i].members == Decode(pairs[Place(collection, bs[i].id)]))
    && (forall id :: Place(collection, id) in pairs ==> exists i :: 0 <= i < |bs| && bs[i].id == id)
  }

  lemma {:induction false} HasKeyIsLookup(ms: seq<Member>, name: Bytes)
    ensures HasKey(ms, name) <==> PathBucket.Lookup(ms, name).Some?
  {
    LastIndexNone(ms, name);
  }

  /** The matches of a collection are the stored paths that satisfy the predicate, each once. */
  lemma {:induction false} MatchesAreStored(hash: Hash, pairs: Pairs, collection: int, bs: seq<Bucket>, pred: Predicate)
    requires ValidStore(hash, pairs) && IsCollection(pairs, collection, bs)
    requires LookupPath(hash, pairs, Path(collection, [])) == None
    ensures ValidCollection(hash, bs)
    ensures forall name :: name in Matches(bs, pred) <==> pred(name) && LookupPath(hash, pairs, Path(collection, name)).Some?
    ensures NoRepeats(Matches(bs, pred))
  {
    hide Decode, Matches, PathBucket.Lookup, HasKey, IsBucket;
    forall i | 0 <= i < |bs| ensures GoodBucket(hash, Place(0, bs[i].id), bs[i].members) {
      assert GoodBucket(hash, Place(collection, bs[i].id), Decode(pairs[Place(collection, bs[i].id)]));
    }
    forall name ensures (exists i :: 0 <= i < |bs| && InBucket(bs[i], name)) <==>
      LookupPath(hash, pairs, Path(collection, name)).Some?
    {
      StoredInBucket(hash, pairs, collection, bs, name);
    }
    assert ValidCollection(hash, bs) by {
      forall i, k | 0 <= i < |bs| && 0 <= k < |bs[i].members| ensures bs[i].members[k].key != [] {
        KeyIsThere(bs[i].members, k);
        StoredInBucket(hash, pairs, collection, bs, []);
        assert !InBucket(bs[i], []);
      }
    }
    MatchesMean(hash, bs, pred);
  }

  lemma {:induction false} KeyIsThere(ms: seq<Member>, k: nat)
    requires k < |ms|
    ensures HasKey(ms, ms[k].key)
  {
  }

  lemma {:induction false} StoredInBucket(hash: Hash, pairs: Pairs, collection: int, bs: seq<Bucket>, name: Bytes)
    requires ValidStore(hash, pairs) && IsCollection(pairs, collection, bs)
    ensures (exists i :: 0 <= i < |bs| && InBucket(bs[i], name)) <==>
      LookupPath(hash, pairs, Path(collection, name)).Some?
  {
    hide Decode, PathBucket.Lookup;
    var place := Place(collection, hash(name));
    HasKeyIsLookup(Decode(Fetched(pairs, place)), name);
    if exists i :: 0 <= i < |bs| && InBucket(bs[i], name) {
      var i :| 0 <= i < |bs| && InBucket(bs[i], name);
      var k :| 0 <= k < |bs[i].members| && bs[i].members[k].key == name;
      assert GoodBucket(hash, Place(collection, bs[i].id), Decode(pairs[Place(collection, bs[i].id)]));
      assert hash(name) == bs[i].id;
    }
    if HasKey(Decode(Fetched(pairs, place)), name) {
      if place in pairs {
        var i :| 0 <= i < |bs| && bs[i].id == hash(name);
        assert InBucket(bs[i], name);
      } else {
        DecodeBucket([], []);
      }
    }
  }
}
