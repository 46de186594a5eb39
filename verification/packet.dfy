/** The packet draw loop (src/lib/server/stickers/index.ts). `Math.random()`
    is an oracle: the caller supplies the sequence of rolls it would return. */
module Packets {

  import opened Common

  const StickersPerPacket: nat := 2

  /** A roll is a value `Math.random()` can return. */
  predicate ValidRolls(rolls: seq<real>) {
    forall j :: 0 <= j < |rolls| ==> 0.0 <= rolls[j] < 1.0
  }

  /** `Math.floor(roll * n)`: an index into a list of length `n`. */
  function RollToIndex(roll: real, n: nat): (i: int)
    requires 0.0 <= roll < 1.0
    ensures n > 0 ==> 0 <= i < n
    ensures n == 0 ==> i == 0
  {
    var x := roll * n as real;
    assert 0.0 <= x;
    assert n > 0 ==> x < n as real;
    x.Floor
  }

  /** The sticker id one roll picks, or None when the catalogue is empty (the
      source then reads `undefined`, and the loop never finishes). */
  function Draw(ids: seq<int>, roll: real): Option<int>
    requires 0.0 <= roll < 1.0
  {
    if |ids| == 0 then None else Some(ids[RollToIndex(roll, |ids|)])
  }

  /** The distinct ids the rolls pick, whatever their order. */
  function DrawnIds(ids: seq<int>, rolls: seq<real>): set<int>
    requires ValidRolls(rolls)
  {
    set j | 0 <= j < |rolls| && Draw(ids, rolls[j]).Some? :: Draw(ids, rolls[j]).value
  }

  predicate NoDuplicates(xs: seq<int>) {
    forall i, j :: 0 <= i < j < |xs| ==> xs[i] != xs[j]
  }

  /** Drawing one more roll adds at most the id it picks. */
  lemma DrawnIdsStep(ids: seq<int>, rolls: seq<real>, k: nat)
    requires ValidRolls(rolls) && k < |rolls|
    ensures DrawnIds(ids, rolls[..k + 1]) == DrawnIds(ids, rolls[..k]) +
      (if Draw(ids, rolls[k]).Some? then {Draw(ids, rolls[k]).value} else {})
  {
  }

  /** Each draw grows the set by at most one id and never shrinks it. */
  lemma DrawGrowsByAtMostOne(ids: seq<int>, rolls: seq<real>, k: nat)
    requires ValidRolls(rolls) && k < |rolls|
    ensures DrawnIds(ids, rolls[..k]) <= DrawnIds(ids, rolls[..k + 1])
    ensures |DrawnIds(ids, rolls[..k + 1])| <= |DrawnIds(ids, rolls[..k])| + 1
  {
    DrawnIdsStep(ids, rolls, k);
  }

  /** More rolls draw at least the same ids. */
  lemma DrawnIdsMonotone(ids: seq<int>, rolls: seq<real>, k: nat)
    requires ValidRolls(rolls) && k <= |rolls|
    ensures DrawnIds(ids, rolls[..k]) <= DrawnIds(ids, rolls)
  {
  }

  /** Every drawn id is in the catalogue. */
  lemma DrawnIdsInCatalogue(ids: seq<int>, rolls: seq<real>)
    requires ValidRolls(rolls)
    ensures forall x :: x in DrawnIds(ids, rolls) ==> x in ids
  {
  }

  /** A list without duplicates has as many distinct elements as entries. */
  lemma {:induction false} DistinctCardinality(xs: seq<int>)
    requires NoDuplicates(xs)
    ensures |set x | x in xs| == |xs|
  {
    if |xs| > 0 {
      var init := xs[..|xs| - 1];
      assert NoDuplicates(init);
      DistinctCardinality(init);
      assert (set x | x in xs) == (set x | x in init) + {xs[|xs| - 1]};
      assert xs[|xs| - 1] !in (set x | x in init);
    }
  }

  /** One pass of the loop body: the drawn id is added unless already held. */
  lemma DrawStep(ids: seq<int>, rolls: seq<real>, k: nat, held: seq<int>, next: seq<int>)
    requires ValidRolls(rolls) && k < |rolls|
    requires NoDuplicates(held) && (set x | x in held) == DrawnIds(ids, rolls[..k])
    requires var d := Draw(ids, rolls[k]);
      next == if d.Some? && d.value !in held then held + [d.value] else held
    ensures NoDuplicates(next) && (set x | x in next) == DrawnIds(ids, rolls[..k + 1])
    ensures |next| <= |held| + 1
  {
    DrawnIdsStep(ids, rolls, k);
    var d := Draw(ids, rolls[k]);
    if d.Some? && d.value !in held {
      assert (set x | x in next) == (set x | x in held) + {d.value};
    }
  }

  /** `generatePacket`'s loop. It draws until the packet holds two distinct
      ids; `used` is how many rolls that took. When the rolls run out first the
      source would keep drawing: the answer is then None. */
  method GeneratePacket(allStickerIds: seq<int>, rolls: seq<real>) returns (packet: Option<seq<int>>, used: nat)
    requires ValidRolls(rolls)
    ensures used <= |rolls|
    ensures packet.Some? <==> |DrawnIds(allStickerIds, rolls)| >= StickersPerPacket
    ensures packet.Some? ==>
      && |packet.value| == StickersPerPacket
      && NoDuplicates(packet.value)
      && (set x | x in packet.value) == DrawnIds(allStickerIds, rolls[..used])
      && (forall x :: x in packet.value ==> x in allStickerIds)
    ensures packet.Some? ==> forall k :: 0 <= k < used ==> |DrawnIds(allStickerIds, rolls[..k])| < StickersPerPacket
    ensures packet.None? ==> used == |rolls|
  {
    var held: seq<int> := [];
    var k := 0;
    while |held| < StickersPerPacket && k < |rolls|
      invariant k <= |rolls|
      invariant NoDuplicates(held)
      invariant (set x | x in held) == DrawnIds(allStickerIds, rolls[..k])
      invariant |held| <= StickersPerPacket
      invariant forall j :: 0 <= j < k ==> |DrawnIds(allStickerIds, rolls[..j])| < StickersPerPacket
    {
      DistinctCardinality(held);
      var d := Draw(allStickerIds, rolls[k]);
      var next := if d.Some? && d.value !in held then held + [d.value] else held;
      DrawStep(allStickerIds, rolls, k, held, next);
      held := next;
      k := k + 1;
    }
    DistinctCardinality(held);
    DrawnIdsInCatalogue(allStickerIds, rolls[..k]);
    if |held| == StickersPerPacket {
      DrawnIdsMonotone(allStickerIds, rolls, k);
      SubsetCardinality(DrawnIds(allStickerIds, rolls[..k]), DrawnIds(allStickerIds, rolls));
      packet, used := Some(held), k;
    } else {
      assert rolls[..k] == rolls;
      packet, used := None, k;
    }
  }

  /** A packet can only be filled from a catalogue with two distinct ids. */
  lemma PacketNeedsTwoDistinctIds(ids: seq<int>, rolls: seq<real>)
    requires ValidRolls(rolls)
    requires |DrawnIds(ids, rolls)| >= StickersPerPacket
    ensures |set i | 0 <= i < |ids| :: ids[i]| >= StickersPerPacket
  {
    DrawnIdsInCatalogue(ids, rolls);
    var catalogue := set i | 0 <= i < |ids| :: ids[i];
    forall x | x in DrawnIds(ids, rolls)
      ensures x in catalogue
    {
      var i :| 0 <= i < |ids| && ids[i] == x;
    }
    SubsetCardinality(DrawnIds(ids, rolls), catalogue);
  }

  lemma SubsetCardinality(a: set<int>, b: set<int>)
    requires a <= b
    ensures |a| <= |b|
  {
    assert b == a + (b - a);
  }
}
