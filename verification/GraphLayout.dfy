/**
The bytes of a vertex (`src/modality_graph.cpp`): two 32-bit degrees, then the outgoing and the
incoming ships of two 64-bit keys each. A vertex without edges may also have no bytes at all.
*/
module GraphLayout {
  import opened Store
  import opened Graph
  import PathLayout

  const WORD := 0x1_0000_0000
  const KEY_BYTES := 8

  predicate IsKey(key: int) {
    -0x8000_0000_0000_0000 <= key < 0x8000_0000_0000_0000
  }

  // ---- Keys: 64-bit two's complement, little-endian ----

  function KeyBytes(key: int): (bytes: Bytes)
    ensures |bytes| == KEY_BYTES
  {
    PathLayout.U32(key % WORD) + PathLayout.U32(key / WORD % WORD)
  }

  function ReadKey(bytes: Bytes): (key: int)
    requires |bytes| == KEY_BYTES
  {
    var n := PathLayout.ReadU32(bytes[..4]) + WORD * PathLayout.ReadU32(bytes[4..]);
    if n < 0x8000_0000_0000_0000 then n else n - WORD * WORD
  }

  lemma {:induction false} KeyRoundTrip(key: int)
    requires IsKey(key)
    ensures ReadKey(KeyBytes(key)) == key
  {
    hide PathLayout.U32, PathLayout.ReadU32;
    var low, high := key % WORD, key / WORD % WORD;
    PathLayout.CounterRoundTrip(low);
    PathLayout.CounterRoundTrip(high);
    assert KeyBytes(key)[..4] == PathLayout.U32(low) && KeyBytes(key)[4..] == PathLayout.U32(high);
    assert key == low + WORD * (key / WORD);
  }

  // ---- Runs of ships ----

  predicate IsShip(ship: Ship) {
    IsKey(ship.neighbor) && IsKey(ship.edge)
  }

  predicate AreShips(run: seq<Ship>) {
    forall i :: 0 <= i < |run| ==> IsShip(run[i])
  }

  function ShipBytes(ship: Ship): (bytes: Bytes)
    ensures |bytes| == SHIP_BYTES
  {
    KeyBytes(ship.neighbor) + KeyBytes(ship.edge)
  }

  function ReadShip(bytes: Bytes): Ship
    requires |bytes| == SHIP_BYTES
  {
    Ship(ReadKey(bytes[..KEY_BYTES]), ReadKey(bytes[KEY_BYTES..]))
  }

  function RunBytes(run: seq<Ship>): (bytes: Bytes)
    ensures |bytes| == SHIP_BYTES * |run|
  {
    if run == [] then [] else RunBytes(run[..|run| - 1]) + ShipBytes(run[|run| - 1])
  }

  function ReadRun(bytes: Bytes, n: nat): (run: seq<Ship>)
    requires |bytes| == SHIP_BYTES * n
    ensures |run| == n
    decreases n
  {
    if n == 0 then [] else
    var at := SHIP_BYTES * (n - 1);
    ReadRun(bytes[..at], n - 1) + [ReadShip(bytes[at..])]
  }

  lemma {:induction false} ShipRoundTrip(ship: Ship)
    requires IsShip(ship)
    ensures ReadShip(ShipBytes(ship)) == ship
  {
    hide KeyBytes, ReadKey, IsKey;
    KeyRoundTrip(ship.neighbor);
    KeyRoundTrip(ship.edge);
    assert ShipBytes(ship)[..KEY_BYTES] == KeyBytes(ship.neighbor);
    assert ShipBytes(ship)[KEY_BYTES..] == KeyBytes(ship.edge);
  }

  lemma {:induction false} RunRoundTrip(run: seq<Ship>)
    requires AreShips(run)
    ensures ReadRun(RunBytes(run), |run|) == run
  {
    hide ShipBytes, ReadShip, IsShip;
    if run != [] {
      var n := |run| - 1;
      var low, last := RunBytes(run[..n]), ShipBytes(run[n]);
      RunRoundTrip(run[..n]);
      ShipRoundTrip(run[n]);
      assert (low + last)[..SHIP_BYTES * n] == low && (low + last)[SHIP_BYTES * n..] == last;
      assert run == run[..n] + [run[n]];
    }
  }

  // ---- Vertices ----

  /** The length of the bytes is a length, and not the one that means missing. */
  predicate Fits(blob: Blob) {
    blob.Bytes() < PathLayout.LENGTH_MISSING && AreShips(Run(blob, Source)) && AreShips(Run(blob, Target))
  }

  /** Degrees wrap around at 32 bits, keys at 64. */
  function Encode(blob: Blob): (bytes: Bytes)
    ensures |bytes| == blob.Bytes()
  {
    match blob
    case Bare => []
    case Listed(outgoing, incoming) =>
      PathLayout.U32(|outgoing| % WORD) + PathLayout.U32(|incoming| % WORD) + RunBytes(outgoing) + RunBytes(incoming)
  }

  /** Bytes without a header are no edges. So are bytes that end before the ships their header counts. */
  function Decode(bytes: Bytes): Blob {
    if |bytes| < HEADER_BYTES then Bare else
    var outs, ins := PathLayout.ReadU32(bytes[..4]), PathLayout.ReadU32(bytes[4..HEADER_BYTES]);
    var middle, end := HEADER_BYTES + SHIP_BYTES * outs, HEADER_BYTES + SHIP_BYTES * (outs + ins);
    if |bytes| < end then Bare else Listed(ReadRun(bytes[HEADER_BYTES..middle], outs), ReadRun(bytes[middle..end], ins))
  }

  /** A vertex that fits reads back, and only a bare one has no bytes. */
  lemma {:induction false} VertexRoundTrip(blob: Blob)
    requires Fits(blob)
    ensures Decode(Encode(blob)) == blob
    ensures Encode(blob) == [] <==> blob.Bare?
  {
    hide PathLayout.U32, PathLayout.ReadU32, RunBytes, ReadRun, AreShips;
    if blob.Listed? {
      var outgoing, incoming := blob.outgoing, blob.incoming;
      var a, b := PathLayout.U32(|outgoing| % WORD), PathLayout.U32(|incoming| % WORD);
      PathLayout.CounterRoundTrip(|outgoing|);
      PathLayout.CounterRoundTrip(|incoming|);
      RunRoundTrip(outgoing);
      RunRoundTrip(incoming);
      FourParts(a, b, RunBytes(outgoing), RunBytes(incoming));
    }
  }

  lemma {:induction false} FourParts(a: Bytes, b: Bytes, c: Bytes, d: Bytes)
    ensures var all := a + b + c + d; var i, j := |a| + |b|, |a| + |b| + |c|;
      all[..|a|] == a && all[|a|..i] == b && all[i..j] == c && all[j..j + |d|] == d
  {
  }

  /** A vertex with the one outgoing edge 5 to 2, byte by byte. */
  lemma {:induction false} OneEdgeBytes()
    ensures Encode(Listed([Ship(2, 5)], [])) ==
      [1, 0, 0, 0] + [0, 0, 0, 0] + [2, 0, 0, 0, 0, 0, 0, 0, 5, 0, 0, 0, 0, 0, 0, 0]
  {
    OneShip(Ship(2, 5));
    ShipsBytes();
    PathLayout.SmallCounters(1);
    PathLayout.SmallCounters(0);
    assert RunBytes([]) == [];
    hide RunBytes, ShipBytes, PathLayout.U32;
    var all := Encode(Listed([Ship(2, 5)], []));
    assert all + [] == all;
  }

  /** Beside it the incoming edge 258 from -1. */
  lemma {:induction false} TwoEdgesBytes()
    ensures Encode(Listed([Ship(2, 5)], [Ship(-1, 258)])) ==
      [1, 0, 0, 0] + [1, 0, 0, 0]
      + [2, 0, 0, 0, 0, 0, 0, 0, 5, 0, 0, 0, 0, 0, 0, 0]
      + [255, 255, 255, 255, 255, 255, 255, 255, 2, 1, 0, 0, 0, 0, 0, 0]
  {
    OneShip(Ship(2, 5));
    OneShip(Ship(-1, 258));
    ShipsBytes();
    PathLayout.SmallCounters(1);
    hide RunBytes, ShipBytes, PathLayout.U32;
  }

  lemma {:induction false} OneShip(ship: Ship)
    ensures RunBytes([ship]) == ShipBytes(ship)
  {
    hide ShipBytes;
    assert [ship][..0] == [];
    assert RunBytes([]) == [] && [] + ShipBytes(ship) == ShipBytes(ship);
  }

  lemma {:induction false} ShipsBytes()
    ensures ShipBytes(Ship(2, 5)) == [2, 0, 0, 0, 0, 0, 0, 0, 5, 0, 0, 0, 0, 0, 0, 0]
    ensures ShipBytes(Ship(-1, 258)) == [255, 255, 255, 255, 255, 255, 255, 255, 2, 1, 0, 0, 0, 0, 0, 0]
  {
    SmallKey(2);
    SmallKey(5);
    SmallKey(258);
    LastKey();
    hide KeyBytes;
  }

  lemma {:induction false} SmallKey(key: nat)
    requires key < 65536
    ensures KeyBytes(key) == [(key % 256) as byte, (key / 256) as byte, 0, 0, 0, 0, 0, 0]
  {
    PathLayout.SmallCounters(key);
    PathLayout.SmallCounters(0);
    hide PathLayout.U32;
    assert key % WORD == key && key / WORD % WORD == 0;
  }

  lemma {:induction false} LastKey()
    ensures KeyBytes(-1) == [255, 255, 255, 255, 255, 255, 255, 255]
  {
    assert -1 % WORD == 0xFFFF_FFFF && -1 / WORD == -1;
    assert PathLayout.U32(0xFFFF_FFFF) == [255, 255, 255, 255];
  }
}
