/** The snapshot the master sends through the Photon stream: the table's
    size, then one (actor number, team ordinal) pair per entry, in the
    dictionary's iteration order. Reading it writes each pair into the
    replica's table and never removes an entry. */
module Snapshot {
  import opened Teams

  /** One value in the stream: a boxed int or a boxed byte. */
  datatype Item = IntItem(i: int) | ByteItem(b: byte)

  /** What a read leaves behind: the table, and whether it ran to the end
      (false: an item was missing or of the wrong type, so the cast threw
      after the pairs before it had been written). */
  datatype ReadOutcome = ReadOutcome(table: map<int, Team>, completed: bool)

  /** The pairs OnSerializeWrite sends for the actors in `keys`, in that order. */
  function Pairs(m: map<int, Team>, keys: seq<int>): (s: seq<Item>)
    requires forall k :: k in keys ==> k in m
    ensures |s| == 2 * |keys|
  {
    if keys == [] then []
    else
      var k := keys[0];
      assert k in keys;
      [IntItem(k), ByteItem(Ordinal(m[k]))] + Pairs(m, keys[1..])
  }

  /** The whole snapshot: the entry count, then the pairs. */
  function Encode(m: map<int, Team>, keys: seq<int>): seq<Item>
    requires forall k :: k in keys ==> k in m
  {
    [IntItem(|m|)] + Pairs(m, keys)
  }

  /** Sending one more pair extends the stream by exactly that pair. */
  lemma {:induction false} PairsAppend(m: map<int, Team>, keys: seq<int>, k: int)
    requires forall x :: x in keys ==> x in m
    requires k in m
    ensures Pairs(m, keys + [k]) == Pairs(m, keys) + [IntItem(k), ByteItem(Ordinal(m[k]))]
  {
    if keys != [] {
      assert (keys + [k])[1..] == keys[1..] + [k];
      PairsAppend(m, keys[1..], k);
    }
  }

  /** Reading `n` pairs from `s` into `m`, as the loop of OnSerializeRead does. */
  function ReadPairs(m: map<int, Team>, s: seq<Item>, n: int): (r: ReadOutcome)
    ensures m.Keys <= r.table.Keys
    decreases |s|
  {
    if n <= 0 then ReadOutcome(m, true)
    else if |s| < 2 || !s[0].IntItem? || !s[1].ByteItem? || FromOrdinal(s[1].b).None? then
      ReadOutcome(m, false)
    else ReadPairs(m[s[0].i := FromOrdinal(s[1].b).value], s[2..], n - 1)
  }

  /** OnSerializeRead's effect on a replica's table `m`. */
  function Decode(m: map<int, Team>, s: seq<Item>): (r: ReadOutcome)
    ensures m.Keys <= r.table.Keys
  {
    if |s| == 0 || !s[0].IntItem? then ReadOutcome(m, false)
    else ReadPairs(m, s[1..], s[0].i)
  }

  /** The entries of `m` for the actors in `keys`. */
  function Restrict(m: map<int, Team>, keys: seq<int>): map<int, Team>
  {
    map k | k in keys && k in m :: m[k]
  }

  /** Reading pairs written from `m` gives every actor written its team in
      `m`, whatever order the actors were written in and however often. */
  lemma {:induction false} ReadWrittenPairs(r: map<int, Team>, m: map<int, Team>, keys: seq<int>)
    requires forall k :: k in keys ==> k in m
    ensures ReadPairs(r, Pairs(m, keys), |keys|) == ReadOutcome(r + Restrict(m, keys), true)
    decreases |keys|
  {
    if keys != [] {
      var k := keys[0];
      OrdinalRoundTrip(m[k]);
      assert Pairs(m, keys)[2..] == Pairs(m, keys[1..]);
      ReadWrittenPairs(r[k := m[k]], m, keys[1..]);
      assert r[k := m[k]] + Restrict(m, keys[1..]) == r + Restrict(m, keys);
    } else {
      assert Restrict(m, keys) == map[];
    }
  }

  /** Round trip: a replica that reads the snapshot of `m`, sent in any order
      that lists each key of `m` once, agrees with `m` on every key of `m` and
      keeps its own entries for every other actor. */
  lemma {:induction false} SnapshotRoundTrip(r: map<int, Team>, m: map<int, Team>, keys: seq<int>)
    requires |keys| == |m|
    requires forall k :: k in keys <==> k in m
    ensures Decode(r, Encode(m, keys)) == ReadOutcome(r + m, true)
    ensures forall a :: a in m ==> Decode(r, Encode(m, keys)).table[a] == m[a]
    ensures forall a :: a !in m ==> (a in Decode(r, Encode(m, keys)).table <==> a in r)
    ensures forall a :: a in r && a !in m ==> Decode(r, Encode(m, keys)).table[a] == r[a]
  {
    var s := Encode(m, keys);
    assert s[1..] == Pairs(m, keys);
    ReadWrittenPairs(r, m, keys);
    assert forall k :: k in Restrict(m, keys) <==> k in m;
    assert Restrict(m, keys) == m;
  }

  /** A replica that starts with an empty table ends with the master's. */
  lemma FreshReplicaMirrors(m: map<int, Team>, keys: seq<int>)
    requires |keys| == |m|
    requires forall k :: k in keys <==> k in m
    ensures Decode(map[], Encode(m, keys)).table == m
  {
    SnapshotRoundTrip(map[], m, keys);
    assert map[] + m == m;
  }

  /** The iteration order the master happens to use does not matter. */
  lemma SnapshotOrderIrrelevant(r: map<int, Team>, m: map<int, Team>, keys1: seq<int>, keys2: seq<int>)
    requires |keys1| == |m| && |keys2| == |m|
    requires forall k :: k in keys1 <==> k in m
    requires forall k :: k in keys2 <==> k in m
    ensures Decode(r, Encode(m, keys1)) == Decode(r, Encode(m, keys2))
  {
    SnapshotRoundTrip(r, m, keys1);
    SnapshotRoundTrip(r, m, keys2);
  }
}
