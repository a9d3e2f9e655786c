/** Recurrence tallies from rows the daemon already folded (crates/sentinel-cli/src/query.rs): saturating
    arithmetic on machine integers, accumulated per key. */
module Recurrence {
  import opened Permutations
  import opened Sorting
  import opened Wrappers

  const U64_MAX: nat := 0xFFFF_FFFF_FFFF_FFFF

  type U64 = n: nat | n <= U64_MAX

  datatype Key = Key(text: string)

  /** A folded row: its recurrence key, how many detections it stands for, the representative's extra I/O. */
  datatype StoredFinding = StoredFinding(key: Key, seenCount: U64, extraOps: Option<U64>)

  datatype RecurrenceStats = RecurrenceStats(count: nat, totalOps: nat)

  function Cap(n: nat, max: nat): (r: nat)
    ensures n <= max ==> r == n
    ensures n > max ==> r == max
  {
    if n <= max then n else max
  }

  /** `seen_count` times the representative's operations, saturating. */
  function StoredImpact(sf: StoredFinding): U64 {
    Cap(sf.seenCount * (match sf.extraOps case Some(ops) => ops case None => 0), U64_MAX)
  }

  /** The same product, without a machine word to fit in. */
  function TrueImpact(sf: StoredFinding): nat {
    match sf.extraOps case Some(ops) => sf.seenCount * ops case None => 0
  }

  function CountOf(key: Key): StoredFinding -> nat {
    (sf: StoredFinding) => if sf.key == key then sf.seenCount as nat else 0
  }

  function OpsOf(key: Key): StoredFinding -> nat {
    (sf: StoredFinding) => if sf.key == key then TrueImpact(sf) else 0
  }

  /** The plain sums over the rows of a key, capped once. */
  ghost predicate Tallied(stats: RecurrenceStats, key: Key, stored: seq<StoredFinding>, usizeMax: nat) {
    && stats.count == Cap(SumBy(CountOf(key), stored), usizeMax)
    && stats.totalOps == Cap(SumBy(OpsOf(key), stored), usizeMax)
  }

  ghost predicate HasRow(key: Key, stored: seq<StoredFinding>) {
    exists i :: 0 <= i < |stored| && stored[i].key == key
  }

  ghost predicate IsIndex(index: map<Key, RecurrenceStats>, stored: seq<StoredFinding>, usizeMax: nat) {
    && (forall key :: key in index <==> HasRow(key, stored))
    && (forall key :: key in index ==> Tallied(index[key], key, stored, usizeMax))
  }

  /** `usize` is no wider than `u64`; a value that does not fit counts as the maximum. */
  method StoredRecurrenceIndex(stored: seq<StoredFinding>, usizeMax: nat) returns (index: map<Key, RecurrenceStats>)
    requires usizeMax <= U64_MAX
    ensures IsIndex(index, stored, usizeMax)
  {
    index := map[];
    for i := 0 to |stored|
      invariant IsIndex(index, stored[..i], usizeMax)
    {
      var sf := stored[i];
      var entry := if sf.key in index then index[sf.key] else RecurrenceStats(0, 0);
      entry := entry.(count := Cap(entry.count + Cap(sf.seenCount, usizeMax), usizeMax));
      entry := entry.(totalOps := Cap(entry.totalOps + Cap(StoredImpact(sf), usizeMax), usizeMax));
      OneRowMore(index, stored[..i], sf, usizeMax);
      index := index[sf.key := entry];
      assert stored[..i + 1] == stored[..i] + [sf];
    }
    assert stored[..|stored|] == stored;
  }

  lemma {:induction false} NoRowNoSum(f: StoredFinding -> nat, stored: seq<StoredFinding>)
    requires forall i :: 0 <= i < |stored| ==> f(stored[i]) == 0
    ensures SumBy(f, stored) == 0
  {
    if stored != [] {
      NoRowNoSum(f, stored[1..]);
    }
  }

  lemma SumOfOneMore(f: StoredFinding -> nat, stored: seq<StoredFinding>, sf: StoredFinding)
    ensures SumBy(f, stored + [sf]) == SumBy(f, stored) + f(sf)
  {
    SumByAppends(f, stored, [sf]);
  }

  /** Saturating at every step is capping once. */
  lemma CapAdds(a: nat, b: nat, inner: nat, max: nat)
    requires max <= inner
    ensures Cap(Cap(a, max) + Cap(Cap(b, inner), max), max) == Cap(a + b, max)
  {
  }

  lemma {:induction false} OneRowTallied(before: RecurrenceStats, key: Key, stored: seq<StoredFinding>,
                                         sf: StoredFinding, usizeMax: nat)
    requires usizeMax <= U64_MAX && Tallied(before, key, stored, usizeMax)
    ensures key != sf.key ==> Tallied(before, key, stored + [sf], usizeMax)
    ensures key == sf.key ==>
              Tallied(RecurrenceStats(Cap(before.count + Cap(sf.seenCount, usizeMax), usizeMax),
                                      Cap(before.totalOps + Cap(StoredImpact(sf), usizeMax), usizeMax)),
                      key, stored + [sf], usizeMax)
  {
    SumOfOneMore(CountOf(key), stored, sf);
    SumOfOneMore(OpsOf(key), stored, sf);
    CapAdds(SumBy(CountOf(key), stored), sf.seenCount, U64_MAX, usizeMax);
    CapAdds(SumBy(OpsOf(key), stored), TrueImpact(sf), U64_MAX, usizeMax);
  }

  lemma HasRowOfOneMore(key: Key, stored: seq<StoredFinding>, sf: StoredFinding)
    ensures HasRow(key, stored + [sf]) <==> HasRow(key, stored) || key == sf.key
  {
    var longer := stored + [sf];
    if HasRow(key, stored) {
      var i :| 0 <= i < |stored| && stored[i].key == key;
      assert longer[i].key == key;
    }
    assert longer[|stored|] == sf;
  }

  lemma {:induction false} OneRowMore(index: map<Key, RecurrenceStats>, stored: seq<StoredFinding>,
                                      sf: StoredFinding, usizeMax: nat)
    requires usizeMax <= U64_MAX && IsIndex(index, stored, usizeMax)
    ensures var before := if sf.key in index then index[sf.key] else RecurrenceStats(0, 0);
            IsIndex(index[sf.key := RecurrenceStats(Cap(before.count + Cap(sf.seenCount, usizeMax), usizeMax),
                                                    Cap(before.totalOps + Cap(StoredImpact(sf), usizeMax), usizeMax))],
                    stored + [sf], usizeMax)
  {
    if sf.key !in index {
      assert !HasRow(sf.key, stored);
      NoRowNoSum(CountOf(sf.key), stored);
      NoRowNoSum(OpsOf(sf.key), stored);
      OneRowTallied(RecurrenceStats(0, 0), sf.key, stored, sf, usizeMax);
    }
    forall key | key in index { OneRowTallied(index[key], key, stored, sf, usizeMax); }
    forall key { HasRowOfOneMore(key, stored, sf); }
  }

  /** The order of the rows does not show, wherever the sums saturate. */
  lemma {:induction false} IndexIgnoresOrder(stored: seq<StoredFinding>, shuffled: seq<StoredFinding>, usizeMax: nat,
                                             index: map<Key, RecurrenceStats>, other: map<Key, RecurrenceStats>)
    requires multiset(stored) == multiset(shuffled)
    requires IsIndex(index, stored, usizeMax) && IsIndex(other, shuffled, usizeMax)
    ensures index == other
  {
    MembersAgree(stored, shuffled);
    forall key ensures HasRow(key, stored) <==> HasRow(key, shuffled) {
      if HasRow(key, stored) {
        var i :| 0 <= i < |stored| && stored[i].key == key;
        assert stored[i] in shuffled;
      }
      if HasRow(key, shuffled) {
        var j :| 0 <= j < |shuffled| && shuffled[j].key == key;
        assert shuffled[j] in stored;
      }
    }
    forall key | key in index ensures index[key] == other[key] {
      assert HasRow(key, stored) && key in other;
      SumByPermutes(CountOf(key), stored, shuffled);
      SumByPermutes(OpsOf(key), stored, shuffled);
    }
  }
}
