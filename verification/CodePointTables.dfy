/** The table generators for unicode properties: support/unicode/unicode_tables.py:101-148. */
module CodePointTables {
  import opened Common

  /** A closed range of code points. */
  datatype Interval = Interval(lo: nat, hi: nat) {
    predicate Contains(cp: nat) {
      lo <= cp <= hi
    }
  }

  ghost predicate Covers(ranges: seq<Interval>, cp: nat) {
    exists i :: 0 <= i < |ranges| && ranges[i].Contains(cp)
  }

  ghost predicate Ascending(cps: seq<nat>) {
    forall i, j :: 0 <= i < j < |cps| ==> cps[i] < cps[j]
  }

  /** In order, not empty, and with a gap between neighbours. */
  ghost predicate Separated(ranges: seq<Interval>) {
    && (forall i :: 0 <= i < |ranges| ==> ranges[i].lo <= ranges[i].hi)
    && (forall i, j :: 0 <= i < j < |ranges| ==> ranges[i].hi + 1 < ranges[j].lo)
  }

  /** Compresses the sorted code points of a set into ranges. */
  method GenerateRanges(cps: seq<nat>) returns (ranges: seq<Interval>)
    requires Ascending(cps)
    ensures Separated(ranges)
    ensures forall cp: nat :: Covers(ranges, cp) <==> cp in cps
  {
    ranges := [];
    var expected: Option<nat> := None;
    for k := 0 to |cps|
      invariant Separated(ranges)
      invariant if k == 0 then expected == None && ranges == []
                else expected == Some(cps[k - 1] + 1) && ranges != [] && ranges[|ranges| - 1].hi == cps[k - 1]
      invariant forall cp: nat :: Covers(ranges, cp) <==> cp in cps[..k]
    {
      var cp := cps[k];
      ghost var before := ranges;
      if expected == None || cp != expected.value {
        ranges := ranges + [Interval(cp, cp)];
      } else {
        var last := |ranges| - 1;
        ranges := ranges[last := Interval(ranges[last].lo, cp)];
      }
      OneMore(before, ranges, cp);
      assert cps[..k + 1] == cps[..k] + [cp];
      expected := Some(cp + 1);
    }
    assert cps[..|cps|] == cps;
  }

  /** Appending a code point, or extending the last range by one, adds exactly that code point. */
  lemma OneMore(before: seq<Interval>, after: seq<Interval>, cp: nat)
    requires after == before + [Interval(cp, cp)] ||
             (before != [] && before[|before| - 1].hi + 1 == cp && before[|before| - 1].lo <= cp &&
              after == before[..|before| - 1] + [Interval(before[|before| - 1].lo, cp)])
    ensures forall c: nat :: Covers(after, c) <==> Covers(before, c) || c == cp
  {
    var n := |after| - 1;
    forall c: nat ensures Covers(after, c) <==> Covers(before, c) || c == cp {
      if Covers(before, c) {
        var i :| 0 <= i < |before| && before[i].Contains(c);
        assert after[i].Contains(c);
      }
      if c == cp {
        assert after[n].Contains(c);
      }
      if Covers(after, c) && c != cp {
        var i :| 0 <= i < |after| && after[i].Contains(c);
        assert before[i].Contains(c);
      }
    }
  }

  ghost function Starts(ranges: seq<Interval>): set<nat> {
    set i | 0 <= i < |ranges| :: ranges[i].lo
  }

  lemma {:induction false} CountStarts(ranges: seq<Interval>)
    ensures |Starts(ranges)| <= |ranges|
    ensures Separated(ranges) ==> |Starts(ranges)| == |ranges|
  {
    if ranges != [] {
      var init, last := ranges[..|ranges| - 1], ranges[|ranges| - 1];
      CountStarts(init);
      assert Starts(ranges) == Starts(init) + {last.lo};
      if Separated(ranges) {
        assert last.lo !in Starts(init);
      }
    }
  }

  /** No list of ranges with the same union is shorter. */
  lemma SeparatedIsMinimal(ranges: seq<Interval>, other: seq<Interval>)
    requires Separated(ranges) && forall cp: nat :: Covers(ranges, cp) <==> Covers(other, cp)
    ensures |ranges| <= |other|
  {
    forall i: nat | i < |ranges| ensures ranges[i].lo in Starts(other) {
      var cp := ranges[i].lo;
      assert ranges[i].Contains(cp);
      assert Covers(other, cp);
      var j :| 0 <= j < |other| && other[j].Contains(cp);
      if cp > 0 {
        assert !Covers(ranges, cp - 1);
        assert !other[j].Contains(cp - 1);
      }
    }
    SubsetSize(Starts(ranges), Starts(other));
    CountStarts(ranges);
    CountStarts(other);
  }

  // ----- maps

  /** Starts a range of code points with the same value. */
  datatype MapEntry<V> = MapEntry(key: nat, value: V)

  function Get<V>(table: map<nat, V>, cp: nat, invalid: V): V {
    if cp in table then table[cp] else invalid
  }

  /** The value of the last entry whose key is not above cp. */
  ghost function LastAt<V>(entries: seq<MapEntry<V>>, cp: nat): Option<V> {
    if entries == [] then None
    else
      var last := entries[|entries| - 1];
      if last.key <= cp then Some(last.value) else LastAt(entries[..|entries| - 1], cp)
  }

  method MaxKey<V>(table: map<nat, V>) returns (r: Option<nat>)
    ensures r.None? <==> table == map[]
    ensures r.Some? ==> r.value in table && forall cp :: cp in table ==> cp <= r.value
  {
    r := None;
    var rest := table.Keys;
    while rest != {}
      invariant rest <= table.Keys
      invariant r.None? <==> rest == table.Keys
      invariant r.Some? ==> r.value in table && forall cp :: cp in table && cp !in rest ==> cp <= r.value
      decreases |rest|
    {
      var cp :| cp in rest;
      rest := rest - {cp};
      if r.None? || r.value < cp {
        r := Some(cp);
      }
    }
  }

  /** Emits an entry wherever the value changes; an empty table is an error. */
  method GenerateMap<V(==)>(table: map<nat, V>, invalid: V) returns (r: Option<seq<MapEntry<V>>>)
    ensures r.None? <==> table == map[]
    ensures r.Some? ==> forall cp: nat :: LastAt(r.value, cp) == Some(Get(table, cp, invalid))
    ensures r.Some? ==> forall i, j :: 0 <= i < j < |r.value| ==> r.value[i].key < r.value[j].key
    ensures r.Some? ==> forall i :: 0 <= i < |r.value| - 1 ==> r.value[i].value != r.value[i + 1].value
  {
    var maxCp := MaxKey(table);
    if maxCp.None? {
      return None;
    }
    var entries: seq<MapEntry<V>> := [];
    var lastValue: Option<V> := None;
    for cp := 0 to maxCp.value + 2
      invariant if cp == 0 then entries == [] && lastValue == None
                else entries != [] && lastValue == Some(Get(table, cp - 1, invalid)) == Some(entries[|entries| - 1].value)
      invariant forall i :: 0 <= i < |entries| ==> entries[i].key < cp
      invariant forall i, j :: 0 <= i < j < |entries| ==> entries[i].key < entries[j].key
      invariant forall i :: 0 <= i < |entries| - 1 ==> entries[i].value != entries[i + 1].value
      invariant forall c: nat :: c < cp ==> LastAt(entries, c) == Some(Get(table, c, invalid))
    {
      var value := Get(table, cp, invalid);
      if lastValue != Some(value) {
        var extended := entries + [MapEntry(cp, value)];
        assert extended[..|entries|] == entries;
        entries := extended;
        lastValue := Some(value);
      }
    }
    forall cp: nat ensures LastAt(entries, cp) == Some(Get(table, cp, invalid)) {
      if cp > maxCp.value {
        assert LastAt(entries, maxCp.value + 1) == Some(invalid);
      }
    }
    r := Some(entries);
  }
}
