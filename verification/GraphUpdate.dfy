/**
The batched update of the graph index, in place (`update_neighborhoods`): deduplicate the
touched vertices, pull their entries, count the growth, reallocate, insert or erase inside the
buffers, write back.
*/
module GraphUpdate {
  import opened Store
  import opened Graph
  import opened Buffers

  function Degree(blob: Blob): nat {
    |Run(blob, Source)| + |Run(blob, Target)|
  }

  lemma {:induction false} PositionUnique(run: seq<Ship>, ship: Ship, k: nat)
    requires Sorted(run) && k <= |run|
    requires forall i :: 0 <= i < k ==> ShipLess(run[i], ship)
    requires k < |run| ==> !ShipLess(run[k], ship)
    ensures k == Position(run, ship)
    ensures ship in run <==> k < |run| && run[k] == ship
  {
    PositionSplits(run, ship);
    PositionFinds(run, ship);
  }

  /** Moves the tail right by one and stores the ship in the gap. */
  method TrivialInsert(ships: array<Ship>, size: nat, at: nat, ship: Ship)
    requires at <= size < ships.Length
    modifies ships
    ensures ships[..size + 1] == Splice(old(ships[..size]), at, ship)
  {
    ghost var was := ships[..];
    CopyInto(ships, at + 1, ships[at..size]);
    CopyInto(ships, at, [ship]);
    Spliced(was, size, at, ship);
  }

  lemma {:induction false} Spliced(s: seq<Ship>, size: nat, at: nat, ship: Ship)
    requires at <= size < |s|
    ensures Overwrite(Overwrite(s, at + 1, s[at..size]), at, [ship])[..size + 1] == Splice(s[..size], at, ship)
  {
    hide Overwrite;
    var moved := Overwrite(s, at + 1, s[at..size]);
    var all := Overwrite(moved, at, [ship]);
    OverwriteElsewhere(s, at + 1, s[at..size], 0, at);
    OverwriteAppends(s, at + 1, at + 1, s[at..size]);
    OverwriteAppends(moved, 0, at, [ship]);
    OverwriteElsewhere(moved, at, [ship], at + 1, size + 1);
    assert all[..size + 1] == all[0..at + 1] + all[at + 1..size + 1];
  }

  /** Moves the tail left over one ship. */
  method TrivialErase(ships: array<Ship>, size: nat, at: nat)
    requires at < size <= ships.Length
    modifies ships
    ensures ships[..size - 1] == Cut(old(ships[..size]), at)
  {
    ghost var was := ships[..];
    CopyInto(ships, at, ships[at + 1..size]);
    CutOut(was, size, at);
  }

  lemma {:induction false} CutOut(s: seq<Ship>, size: nat, at: nat)
    requires at < size <= |s|
    ensures Overwrite(s, at, s[at + 1..size])[..size - 1] == Cut(s[..size], at)
  {
  }

  /** `std::lower_bound` over one run inside a buffer. */
  method LowerBound(ships: array<Ship>, low: nat, high: nat, ship: Ship) returns (it: nat)
    requires low <= high <= ships.Length
    requires Sorted(ships[low..high])
    ensures low <= it <= high
    ensures it - low == Position(ships[low..high], ship)
    ensures ship in ships[low..high] <==> it != high && ships[it] == ship
  {
    ghost var run := ships[low..high];
    var first, last := 0, high - low;
    while first < last
      invariant 0 <= first <= last <= |run|
      invariant forall i :: 0 <= i < first ==> ShipLess(run[i], ship)
      invariant forall i :: last <= i < |run| ==> !ShipLess(run[i], ship)
    {
      var middle := (first + last) / 2;
      assert ships[low + middle] == run[middle];
      if ShipLess(ships[low + middle], ship) {
        first := middle + 1;
      } else {
        last := middle;
      }
    }
    it := low + first;
    PositionUnique(run, ship, first);
  }

  function Splice(run: seq<Ship>, k: nat, ship: Ship): seq<Ship>
    requires k <= |run|
  {
    run[..k] + [ship] + run[k..]
  }

  function Cut(run: seq<Ship>, k: nat): seq<Ship>
    requires k < |run|
  {
    run[..k] + run[k + 1..]
  }

  lemma {:induction false} SplicedRuns(a: seq<Ship>, b: seq<Ship>, k: nat, ship: Ship)
    ensures k <= |a| ==> Splice(a + b, k, ship) == Splice(a, k, ship) + b && |Splice(a, k, ship)| == |a| + 1
    ensures k <= |b| ==> Splice(a + b, |a| + k, ship) == a + Splice(b, k, ship)
  {
  }

  lemma {:induction false} CutRuns(a: seq<Ship>, b: seq<Ship>, k: nat)
    ensures k < |a| ==> Cut(a + b, k) == Cut(a, k) + b && |Cut(a, k)| == |a| - 1
    ensures k < |b| ==> Cut(a + b, |a| + k) == a + Cut(b, k)
  {
  }

  /** Inserts at position `k` of one of the two runs that fill `ships[..o]` and `ships[o..n]`. */
  method InsertAt(ships: array<Ship>, o: nat, n: nat, role: Role, k: nat, ship: Ship) returns (o': nat)
    requires o <= n < ships.Length
    requires k <= if role == Source then o else n - o
    modifies ships
    ensures o' == if role == Source then o + 1 else o
    ensures ships[..o'] == if role == Source then Splice(old(ships[..o]), k, ship) else old(ships[..o])
    ensures ships[o'..n + 1] == if role == Source then old(ships[o..n]) else Splice(old(ships[o..n]), k, ship)
  {
    hide Splice;
    ghost var a, b := ships[..o], ships[o..n];
    assert ships[..n] == a + b;
    TrivialInsert(ships, n, if role == Source then k else o + k, ship);
    SplicedRuns(a, b, k, ship);
    if role == Source {
      o' := o + 1;
      TwoRuns(ships, n + 1, Splice(a, k, ship), b);
    } else {
      o' := o;
      TwoRuns(ships, n + 1, a, Splice(b, k, ship));
    }
  }

  method EraseAt(ships: array<Ship>, o: nat, n: nat, role: Role, k: nat) returns (o': nat)
    requires o <= n <= ships.Length
    requires k < if role == Source then o else n - o
    modifies ships
    ensures o' == if role == Source then o - 1 else o
    ensures ships[..o'] == if role == Source then Cut(old(ships[..o]), k) else old(ships[..o])
    ensures ships[o'..n - 1] == if role == Source then old(ships[o..n]) else Cut(old(ships[o..n]), k)
  {
    hide Cut;
    ghost var a, b := ships[..o], ships[o..n];
    assert ships[..n] == a + b;
    TrivialErase(ships, n, if role == Source then k else o + k);
    CutRuns(a, b, k);
    if role == Source {
      o' := o - 1;
      TwoRuns(ships, n - 1, Cut(a, k), b);
    } else {
      o' := o;
      TwoRuns(ships, n - 1, a, Cut(b, k));
    }
  }

  lemma {:induction false} InsertIsSplice(run: seq<Ship>, ship: Ship)
    requires Sorted(run)
    ensures ship !in run ==> InsertRun(run, ship) == Splice(run, Position(run, ship), ship)
    ensures ship in run ==> InsertRun(run, ship) == run
    ensures Sorted(InsertRun(run, ship))
  {
    InsertKeepsSorted(run, ship);
  }

  lemma {:induction false} EraseIsCut(run: seq<Ship>, ship: Ship)
    requires Sorted(run)
    ensures ship in run ==> Position(run, ship) < |run| && EraseRun(run, ship) == Cut(run, Position(run, ship))
    ensures ship !in run ==> EraseRun(run, ship) == run
    ensures Sorted(EraseRun(run, ship))
  {
    EraseKeepsSorted(run, ship);
    PositionFinds(run, ship);
  }

  function InsertAs(run: seq<Ship>, ship: Ship, here: bool): seq<Ship> {
    if here then InsertRun(run, ship) else run
  }

  function EraseAs(run: seq<Ship>, ship: Ship, here: bool): seq<Ship> {
    if here then EraseRun(run, ship) else run
  }

  /** Searches one of the two runs and inserts what it does not find. */
  method InsertIntoRuns(ships: array<Ship>, o: nat, n: nat, role: Role, ship: Ship) returns (o': nat, n': nat)
    requires o <= n <= ships.Length
    requires Sorted(ships[..o]) && Sorted(ships[o..n])
    requires ship in (if role == Source then ships[..o] else ships[o..n]) || n < ships.Length
    modifies ships
    ensures o' <= n' <= ships.Length
    ensures ships[..o'] == InsertAs(old(ships[..o]), ship, role == Source)
    ensures ships[o'..n'] == InsertAs(old(ships[o..n]), ship, role == Target)
    ensures Sorted(ships[..o']) && Sorted(ships[o'..n'])
  {
    hide Sorted, Position, InsertRun, Splice;
    o', n' := o, n;
    if role == Source {
      var it := LowerBound(ships, 0, o, ship);
      assert ships[0..o] == ships[..o];
      InsertIsSplice(ships[..o], ship);
      if it == o || ships[it] != ship {
        n' := n + 1;
        o' := InsertAt(ships, o, n, Source, it, ship);
      }
    } else {
      var it := LowerBound(ships, o, n, ship);
      InsertIsSplice(ships[o..n], ship);
      if it == n || ships[it] != ship {
        n' := n + 1;
        o' := InsertAt(ships, o, n, Target, it - o, ship);
      }
    }
  }

  /** Searches one of the two runs and erases what it finds. */
  method EraseFromRuns(ships: array<Ship>, o: nat, n: nat, role: Role, ship: Ship) returns (o': nat, n': nat)
    requires o <= n <= ships.Length
    requires Sorted(ships[..o]) && Sorted(ships[o..n])
    modifies ships
    ensures o' <= n' <= n
    ensures ships[..o'] == EraseAs(old(ships[..o]), ship, role == Source)
    ensures ships[o'..n'] == EraseAs(old(ships[o..n]), ship, role == Target)
    ensures Sorted(ships[..o']) && Sorted(ships[o'..n'])
  {
    hide Sorted, Position, EraseRun, Cut;
    o', n' := o, n;
    if role == Source {
      var it := LowerBound(ships, 0, o, ship);
      assert ships[0..o] == ships[..o];
      EraseIsCut(ships[..o], ship);
      if it != o && ships[it] == ship {
        n' := n - 1;
        o' := EraseAt(ships, o, n, Source, it);
      }
    } else {
      var it := LowerBound(ships, o, n, ship);
      EraseIsCut(ships[o..n], ship);
      if it != n && ships[it] == ship {
        n' := n - 1;
        o' := EraseAt(ships, o, n, Target, it - o);
      }
    }
  }

  class UpdatedEntry {
    var ships: array<Ship>
    var outDegree: nat
    var inDegree: nat
    /** In bytes; a vertex that is not stored is pulled with none. */
    var length: nat
    var degreeDelta: nat
    /** Whether the content pointer points anywhere. */
    var linked: bool

    predicate Valid()
      reads this, ships
    {
      length == 0 ||
      (&& length == HEADER_BYTES + SHIP_BYTES * (outDegree + inDegree)
       && outDegree + inDegree <= ships.Length
       && Sorted(ships[..outDegree])
       && Sorted(ships[outDegree..outDegree + inDegree]))
    }

    function View(): (blob: Blob)
      requires Valid()
      reads this, ships
      ensures WellFormed(blob)
      ensures blob.Bytes() == length
    {
      if length == 0 then Bare
      else Listed(ships[..outDegree], ships[outDegree..outDegree + inDegree])
    }

    /** `pull_and_link_for_updates`: links the entry to what was found in the store. */
    constructor (found: Blob, tape: bool)
      requires WellFormed(found)
      ensures Valid() && View() == found && degreeDelta == 0 && linked == tape && fresh(ships)
    {
      linked := tape;
      var all := if found.Listed? then found.outgoing + found.incoming else [];
      ships := new Ship[|all|](i requires 0 <= i < |all| => all[i]);
      outDegree := |Run(found, Source)|;
      inDegree := |Run(found, Target)|;
      length := found.Bytes();
      degreeDelta := 0;
      new;
      assert ships[..] == all;
      if found.Listed? {
        assert ships[..outDegree] == found.outgoing;
        assert ships[outDegree..outDegree + inDegree] == found.incoming;
      }
    }

    function First(role: Role): nat
      reads this
    {
      if role == Source then 0 else outDegree
    }

    function End(role: Role): nat
      reads this
    {
      if role == Source then outDegree else outDegree + inDegree
    }

    /** Pass one: counts a ship the stored entry does not have. */
    method CountInsert(role: Role, ship: Ship)
      requires Valid()
      modifies this`degreeDelta
      ensures Valid() && View() == old(View())
      ensures degreeDelta == old(degreeDelta) + (if ship in Run(View(), role) then 0 else 1)
    {
      hide Sorted, Position;
      if length > HEADER_BYTES {
        var it := LowerBound(ships, First(role), End(role), ship);
        if it != End(role) && ships[it] == ship {
          return;
        }
      }
      degreeDelta := degreeDelta + 1;
    }

    /** Pass two: a buffer for the present bytes, the counted ships and, if it is absent, the header. */
    method Reallocate()
      requires Valid()
      modifies this`ships, this`linked
      ensures Valid() && fresh(ships) && linked && View() == old(View())
      ensures ships.Length == Degree(View()) + degreeDelta
    {
      var bytesForDegrees := if length > HEADER_BYTES then 0 else HEADER_BYTES;
      var newSize := length + degreeDelta * SHIP_BYTES + bytesForDegrees;
      var size := if length == 0 then 0 else outDegree + inDegree;
      var capacity := (newSize - HEADER_BYTES) / SHIP_BYTES;
      assert capacity == size + degreeDelta;
      var source := ships;
      var buffer := new Ship[capacity](i => Ship(0, 0));
      CopyInto(buffer, 0, source[..size]);
      if length != 0 {
        assert buffer[..size] == source[..size];
        assert buffer[..outDegree] == buffer[..size][..outDegree] == source[..outDegree];
        assert buffer[outDegree..size] == buffer[..size][outDegree..] == source[outDegree..size];
      }
      ships, linked := buffer, true;
    }

    /** Pass three: the buffer must have room whenever the ship is new. */
    method Insert(role: Role, ship: Ship)
      requires Valid()
      requires ship in Run(View(), role) || Degree(View()) < ships.Length
      modifies this`outDegree, this`inDegree, this`length, ships
      ensures Valid()
      ensures View() == InsertBlob(old(View()), role, ship)
    {
      hide Sorted, InsertRun;
      if length < HEADER_BYTES {
        InsertFirst(role, ship);
      } else {
        InsertNext(role, ship);
      }
    }

    method InsertNext(role: Role, ship: Ship)
      requires Valid() && length != 0
      requires ship in Run(View(), role) || outDegree + inDegree < ships.Length
      modifies this`outDegree, this`inDegree, this`length, ships
      ensures Valid() && length != 0
      ensures View() == Listed(InsertAs(old(View()).outgoing, ship, role == Source),
                               InsertAs(old(View()).incoming, ship, role == Target))
    {
      hide Sorted, InsertAs, Run;
      RunIsStored(role);
      var o, n := InsertIntoRuns(ships, outDegree, outDegree + inDegree, role, ship);
      length := length + SHIP_BYTES * (n - outDegree - inDegree);
      outDegree, inDegree := o, n - o;
      ViewIs(ships[..o], ships[o..n]);
    }

    lemma {:induction false} RunIsStored(role: Role)
      requires Valid() && length != 0
      ensures View() == Listed(ships[..outDegree], ships[outDegree..outDegree + inDegree])
      ensures Run(View(), role) == if role == Source then ships[..outDegree] else ships[outDegree..outDegree + inDegree]
    {
    }

    lemma {:induction false} ViewIs(outgoing: seq<Ship>, incoming: seq<Ship>)
      requires length == HEADER_BYTES + SHIP_BYTES * (outDegree + inDegree) && outDegree + inDegree <= ships.Length
      requires outgoing == ships[..outDegree] && incoming == ships[outDegree..outDegree + inDegree]
      requires Sorted(outgoing) && Sorted(incoming)
      ensures Valid() && View() == Listed(outgoing, incoming)
    {
      hide Sorted;
    }

    /** The branch of `insert_into_entry` for an entry that has no header yet. */
    method InsertFirst(role: Role, ship: Ship)
      requires length == 0 && 0 < ships.Length
      modifies this`outDegree, this`inDegree, this`length, ships
      ensures Valid()
      ensures View() == InsertBlob(Bare, role, ship)
    {
      hide Sorted, InsertRun;
      ships[0] := ship;
      length := length + HEADER_BYTES + SHIP_BYTES;
      FirstShip(ship);
      if role == Target {
        outDegree, inDegree := 0, 1;
        assert ships[..outDegree] == [] && ships[outDegree..outDegree + inDegree] == [ship];
      } else {
        outDegree, inDegree := 1, 0;
        assert ships[..outDegree] == [ship] && ships[outDegree..outDegree + inDegree] == [];
      }
    }

    method Erase(role: Role, ship: Ship)
      requires Valid()
      modifies this`outDegree, this`inDegree, this`length, this`degreeDelta, ships
      ensures Valid()
      ensures View() == EraseBlob(old(View()), role, ship)
    {
      hide Sorted, EraseRun;
      if length >= HEADER_BYTES {
        var o, n := EraseFromRuns(ships, outDegree, outDegree + inDegree, role, ship);
        degreeDelta := degreeDelta + (outDegree + inDegree - n);
        length := length - SHIP_BYTES * (outDegree + inDegree - n);
        outDegree, inDegree := o, n - o;
      }
    }
  }

  lemma {:induction false} FirstShip(ship: Ship)
    ensures InsertRun([], ship) == [ship]
    ensures Sorted([]) && Sorted([ship])
  {
  }

  /** The used part of a buffer is two runs, one after the other. */
  lemma {:induction false} TwoRuns(ships: array<Ship>, n: nat, outgoing: seq<Ship>, incoming: seq<Ship>)
    requires n <= ships.Length && ships[..n] == outgoing + incoming
    ensures ships[..|outgoing|] == outgoing && ships[|outgoing|..n] == incoming
  {
    assert ships[..|outgoing|] == ships[..n][..|outgoing|];
    assert ships[|outgoing|..n] == ships[..n][|outgoing|..];
  }
}
