/**
 Exception handler tables: the in-place merge of adjacent entries
 (src/bytecode/writer.cpp:62-84) and the search used at run time
 (src/vm/objects/function.cpp:50-59).
 */
module HandlerTable {
  import opened Common

  /** A half-open range of code offsets and the label or offset that handles it. */
  datatype Region = Region(from: nat, to: nat, target: nat) {
    predicate Covers(pc: nat) {
      from <= pc < to
    }
  }

  /** Entries are non-empty, in order, and do not overlap. */
  ghost predicate Sorted(t: seq<Region>) {
    && (forall i :: 0 <= i < |t| ==> t[i].from < t[i].to)
    && (forall i, j :: 0 <= i < j < |t| ==> t[i].to <= t[j].from)
  }

  /** The target of the entry that covers pc. */
  ghost function Lookup(t: seq<Region>, pc: nat): Option<nat> {
    if t == [] then None
    else
      var last := t[|t| - 1];
      if last.Covers(pc) then Some(last.target) else Lookup(t[..|t| - 1], pc)
  }

  ghost predicate SameLookup(s: seq<Region>, t: seq<Region>) {
    forall pc: nat :: Lookup(s, pc) == Lookup(t, pc)
  }

  lemma {:induction false} LookupMeaning(t: seq<Region>, pc: nat)
    ensures Lookup(t, pc).Some? ==>
              exists i :: 0 <= i < |t| && t[i].Covers(pc) && Lookup(t, pc) == Some(t[i].target)
    ensures Lookup(t, pc).None? ==> forall i :: 0 <= i < |t| ==> !t[i].Covers(pc)
  {
    if t != [] {
      var init := t[..|t| - 1];
      LookupMeaning(init, pc);
      assert forall i :: 0 <= i < |init| ==> t[i] == init[i];
    }
  }

  lemma LookupInSorted(t: seq<Region>, i: nat, pc: nat)
    requires Sorted(t) && i < |t| && t[i].Covers(pc)
    ensures Lookup(t, pc) == Some(t[i].target)
  {
    LookupMeaning(t, pc);
  }

  predicate Joins(e: Region, next: Region) {
    next.from == e.to && next.target == e.target
  }

  /** Appends an entry, or extends the last one if the new entry joins it. */
  function Push(m: seq<Region>, next: Region): (r: seq<Region>)
    ensures 0 < |r| <= |m| + 1
  {
    if m != [] && Joins(m[|m| - 1], next)
    then m[..|m| - 1] + [m[|m| - 1].(to := next.to)]
    else m + [next]
  }

  /** The table with every run of joining entries replaced by one entry. */
  ghost function Merged(t: seq<Region>): (m: seq<Region>)
    ensures |m| <= |t|
  {
    if t == [] then [] else Push(Merged(t[..|t| - 1]), t[|t| - 1])
  }

  /** No entry joins the one before it. */
  ghost predicate Compact(t: seq<Region>) {
    forall i :: 0 <= i < |t| - 1 ==> !Joins(t[i], t[i + 1])
  }

  /** Rewrites the first entries of the vector; the caller drops the others. */
  method SimplifyHandlers(handlers: array<Region>) returns (size: nat)
    modifies handlers
    ensures size <= handlers.Length
    ensures handlers[..size] == Merged(old(handlers[..]))
  {
    ghost var before := handlers[..];
    if handlers.Length == 0 {
      return 0;
    }
    var last := 0;
    var next := 1;
    MergedOne(before);
    while next < handlers.Length
      invariant 0 <= last < next <= handlers.Length == |before|
      invariant handlers[..last + 1] == Merged(before[..next])
      invariant forall k :: next <= k < handlers.Length ==> handlers[k] == before[k]
    {
      MergedStep(before, next);
      last := FoldEntry(handlers, last, next);
      next := next + 1;
    }
    size := last + 1;
    assert before[..next] == before;
  }

  /** Extends the last entry kept, or keeps the next one behind it. */
  method FoldEntry(handlers: array<Region>, last: nat, next: nat) returns (newLast: nat)
    requires last < next < handlers.Length
    modifies handlers
    ensures last <= newLast <= next
    ensures handlers[..newLast + 1] == Push(old(handlers[..last + 1]), old(handlers[next]))
    ensures forall k :: next < k < handlers.Length ==> handlers[k] == old(handlers[k])
  {
    if Joins(handlers[last], handlers[next]) {
      handlers[last] := handlers[last].(to := handlers[next].to);
      return last;
    }
    handlers[last + 1] := handlers[next];
    return last + 1;
  }

  lemma MergedOne(t: seq<Region>)
    requires t != []
    ensures Merged(t[..1]) == t[..1]
  {
    assert t[..1][..0] == [];
  }

  lemma MergedStep(t: seq<Region>, n: nat)
    requires n < |t|
    ensures Merged(t[..n + 1]) == Push(Merged(t[..n]), t[n])
  {
    assert t[..n + 1][..n] == t[..n];
  }

  lemma PushKeepsShape(m: seq<Region>, next: Region)
    requires Sorted(m) && Compact(m) && next.from < next.to
    requires m != [] ==> m[|m| - 1].to <= next.from
    ensures Sorted(Push(m, next)) && Compact(Push(m, next))
    ensures var r := Push(m, next); r[|r| - 1].to == next.to
  {
    if m != [] && Joins(m[|m| - 1], next) {
      var r := Push(m, next);
      var n := |m| - 1;
      assert forall i :: 0 <= i < n ==> r[i] == m[i];
      assert r[n] == m[n].(to := next.to);
    }
  }

  lemma {:induction false} MergeKeepsShape(t: seq<Region>)
    requires Sorted(t)
    ensures Sorted(Merged(t)) && Compact(Merged(t))
    ensures t != [] ==> var m := Merged(t); m != [] && m[|m| - 1].to == t[|t| - 1].to
  {
    if t != [] {
      MergeKeepsShape(t[..|t| - 1]);
      PushKeepsShape(Merged(t[..|t| - 1]), t[|t| - 1]);
    }
  }

  lemma PushLookup(m: seq<Region>, next: Region, pc: nat)
    requires forall i :: 0 <= i < |m| ==> m[i].from < m[i].to
    requires next.from < next.to
    ensures Lookup(Push(m, next), pc) == Lookup(m + [next], pc)
  {
    assert (m + [next])[..|m|] == m;
    if m != [] && Joins(m[|m| - 1], next) {
      var r := Push(m, next);
      assert r[..|r| - 1] == m[..|m| - 1];
    }
  }

  /** Merging is invisible to the search, at every pc. */
  lemma {:induction false} MergePreservesLookup(t: seq<Region>)
    requires Sorted(t)
    ensures SameLookup(Merged(t), t)
  {
    if t != [] {
      var init, next := t[..|t| - 1], t[|t| - 1];
      MergePreservesLookup(init);
      MergeKeepsShape(init);
      var m := Merged(init);
      forall pc: nat ensures Lookup(Merged(t), pc) == Lookup(t, pc) {
        PushLookup(m, next, pc);
        assert (m + [next])[..|m|] == m;
        assert Lookup(m, pc) == Lookup(init, pc);
      }
    }
  }

  lemma {:induction false} CompactIsFixed(t: seq<Region>)
    requires Compact(t)
    ensures Merged(t) == t
  {
    if t != [] {
      var init := t[..|t| - 1];
      CompactIsFixed(init);
      if init != [] {
        assert !Joins(t[|t| - 2], t[|t| - 2 + 1]);
      }
    }
  }

  lemma MergeIsIdempotent(t: seq<Region>)
    requires Sorted(t)
    ensures Merged(Merged(t)) == Merged(t)
  {
    MergeKeepsShape(t);
    CompactIsFixed(Merged(t));
  }

  ghost function Starts(t: seq<Region>): set<nat> {
    set i | 0 <= i < |t| :: t[i].from
  }

  lemma {:induction false} CountStarts(t: seq<Region>)
    ensures |Starts(t)| <= |t|
    ensures Sorted(t) ==> |Starts(t)| == |t|
  {
    if t != [] {
      var init, last := t[..|t| - 1], t[|t| - 1];
      CountStarts(init);
      assert Starts(t) == Starts(init) + {last.from};
      if Sorted(t) {
        assert last.from !in Starts(init);
      }
    }
  }

  /** The handler changes at the start of every entry of a compact table. */
  lemma StartIsVisible(m: seq<Region>, i: nat)
    requires Sorted(m) && Compact(m) && i < |m|
    ensures Lookup(m, m[i].from) == Some(m[i].target)
    ensures m[i].from > 0 ==> Lookup(m, m[i].from - 1) != Some(m[i].target)
  {
    LookupInSorted(m, i, m[i].from);
    if m[i].from > 0 {
      var pc := m[i].from - 1;
      LookupMeaning(m, pc);
      forall j | 0 <= j < |m| && m[j].Covers(pc) ensures m[j].target != m[i].target {
        assert j < i;
        if j == i - 1 {
          assert !Joins(m[j], m[j + 1]);
        }
      }
    }
  }

  /** Where the looked-up target changes, an entry starts. */
  lemma ChangeIsAStart(t: seq<Region>, pc: nat)
    requires Sorted(t)
    requires Lookup(t, pc).Some?
    requires pc > 0 ==> Lookup(t, pc - 1) != Lookup(t, pc)
    ensures pc in Starts(t)
  {
    LookupMeaning(t, pc);
    var i :| 0 <= i < |t| && t[i].Covers(pc) && Lookup(t, pc) == Some(t[i].target);
    if t[i].from < pc {
      LookupInSorted(t, i, pc - 1);
    }
  }

  /** No sorted table with the same lookup has fewer entries than the merged one. */
  lemma MergedIsMinimal(t: seq<Region>, other: seq<Region>)
    requires Sorted(t) && Sorted(other) && SameLookup(t, other)
    ensures |Merged(t)| <= |other|
  {
    var m := Merged(t);
    MergeKeepsShape(t);
    MergePreservesLookup(t);
    forall i: nat | i < |m| ensures m[i].from in Starts(other) {
      StartIsVisible(m, i);
      var pc := m[i].from;
      assert forall q: nat :: Lookup(m, q) == Lookup(t, q) == Lookup(other, q);
      ChangeIsAStart(other, pc);
    }
    assert Starts(m) <= Starts(other);
    SubsetSize(Starts(m), Starts(other));
    CountStarts(m);
    CountStarts(other);
  }

  /** Finds the first entry that ends after pc, by halving, and checks that it covers pc. */
  method FindEntry(entries: seq<Region>, pc: nat) returns (entry: Option<Region>)
    requires Sorted(entries)
    ensures entry.Some? ==> entry.value in entries && entry.value.Covers(pc)
    ensures Lookup(entries, pc) == if entry.Some? then Some(entry.value.target) else None
  {
    var lo, len := 0, |entries|;
    while len > 0
      invariant 0 <= lo <= lo + len <= |entries|
      invariant forall k :: 0 <= k < lo ==> entries[k].to <= pc
      invariant forall k :: lo + len <= k < |entries| ==> pc < entries[k].to
    {
      var half := len / 2;
      if pc < entries[lo + half].to {
        len := half;
      } else {
        lo, len := lo + half + 1, len - half - 1;
      }
    }
    LookupMeaning(entries, pc);
    if lo == |entries| || pc < entries[lo].from {
      return None;
    }
    LookupInSorted(entries, lo, pc);
    return Some(entries[lo]);
  }
}
