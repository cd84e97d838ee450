/**
 Numbering the leaves of a class hierarchy so that every class covers a range of numbers:
 support/codegen/objects.py:39-50, 90-110 and support/codegen/ast.py:602-632.
 */
module HierarchyLabels {
  import opened Common

  /** `final` is read by type_tags only; init_tree looks at the children. */
  datatype Tree = Tree(name: string, final: bool, children: seq<Tree>)

  /** Names of all nodes, parents first. */
  function Names(t: Tree): seq<string>
    decreases t, 0
  {
    [t.name] + NamesOf(t.children)
  }

  function NamesOf(ts: seq<Tree>): seq<string>
    decreases ts, 1
  {
    if ts == [] then [] else Names(ts[0]) + NamesOf(ts[1..])
  }

  /** Names of the leaves, from left to right. */
  function Leaves(t: Tree): seq<string>
    decreases t, 0
  {
    if t.children == [] then [t.name] else LeavesOf(t.children)
  }

  function LeavesOf(ts: seq<Tree>): seq<string>
    decreases ts, 1
  {
    if ts == [] then [] else Leaves(ts[0]) + LeavesOf(ts[1..])
  }

  ghost predicate Distinct(names: seq<string>) {
    forall i, j :: 0 <= i < j < |names| ==> names[i] != names[j]
  }

  ghost predicate InTree(t: Tree, node: Tree)
    decreases t
  {
    t == node || exists c :: c in t.children && InTree(c, node)
  }

  // ----- leaves lie next to each other

  lemma {:induction false} LeavesNotEmpty(t: Tree)
    ensures Leaves(t) != []
    decreases t
  {
    if t.children != [] {
      LeavesNotEmpty(t.children[0]);
    }
  }

  /** The leaves under a node form one stretch of all leaves. */
  lemma {:induction false} LeavesAreAStretch(t: Tree, node: Tree) returns (pre: seq<string>, post: seq<string>)
    requires InTree(t, node)
    ensures Leaves(t) == pre + Leaves(node) + post
    decreases t, 0
  {
    if t == node {
      pre, post := [], [];
    } else {
      var c :| c in t.children && InTree(c, node);
      pre, post := StretchOf(t.children, c, node);
    }
  }

  lemma {:induction false} StretchOf(ts: seq<Tree>, c: Tree, node: Tree) returns (pre: seq<string>, post: seq<string>)
    requires c in ts && InTree(c, node)
    ensures LeavesOf(ts) == pre + Leaves(node) + post
    decreases ts, 1
  {
    if ts[0] == c {
      pre, post := LeavesAreAStretch(c, node);
      assert pre + Leaves(node) + post + LeavesOf(ts[1..]) == pre + Leaves(node) + (post + LeavesOf(ts[1..]));
      post := post + LeavesOf(ts[1..]);
    } else {
      pre, post := StretchOf(ts[1..], c, node);
      assert Leaves(ts[0]) + (pre + Leaves(node) + post) == (Leaves(ts[0]) + pre) + Leaves(node) + post;
      pre := Leaves(ts[0]) + pre;
    }
  }

  lemma {:induction false} NamesOfAppend(ts: seq<Tree>, c: Tree)
    ensures NamesOf(ts + [c]) == NamesOf(ts) + Names(c)
  {
    if ts == [] {
      assert ts + [c] == [c] && [c][1..] == [];
    } else {
      assert (ts + [c])[1..] == ts[1..] + [c];
      NamesOfAppend(ts[1..], c);
      assert Names(ts[0]) + (NamesOf(ts[1..]) + Names(c)) == NamesOf(ts) + Names(c);
    }
  }

  lemma {:induction false} LeavesOfAppend(ts: seq<Tree>, c: Tree)
    ensures LeavesOf(ts + [c]) == LeavesOf(ts) + Leaves(c)
  {
    if ts == [] {
      assert ts + [c] == [c] && [c][1..] == [];
    } else {
      assert (ts + [c])[1..] == ts[1..] + [c];
      LeavesOfAppend(ts[1..], c);
      assert Leaves(ts[0]) + (LeavesOf(ts[1..]) + Leaves(c)) == LeavesOf(ts) + Leaves(c);
    }
  }

  lemma {:induction false} NamesOfSplit(ts: seq<Tree>, k: nat)
    requires k <= |ts|
    ensures NamesOf(ts) == NamesOf(ts[..k]) + NamesOf(ts[k..])
  {
    if k == 0 {
      assert ts[0..] == ts;
    } else {
      NamesOfSplit(ts[1..], k - 1);
      assert ts[..k][1..] == ts[1..][..k - 1] && ts[1..][k - 1..] == ts[k..];
      assert Names(ts[0]) + (NamesOf(ts[..k][1..]) + NamesOf(ts[k..])) == NamesOf(ts[..k]) + NamesOf(ts[k..]);
    }
  }

  // ----- ids

  /** The leaves are numbered one after the other, starting with `first`. */
  ghost predicate Numbered(leaves: seq<string>, first: nat, ids: map<string, nat>) {
    forall i :: 0 <= i < |leaves| ==> leaves[i] in ids && ids[leaves[i]] == first + i
  }

  /** New names, none of them used twice. */
  ghost predicate NewNames(names: seq<string>, used: set<string>) {
    Distinct(names) && forall n :: n in names ==> n !in used
  }

  ghost function NameSet(names: seq<string>): set<string> {
    set n | n in names
  }

  lemma NewNamesSplit(a: seq<string>, b: seq<string>, used: set<string>)
    ensures NewNames(a + b, used) <==> NewNames(a, used) && NewNames(b, used + NameSet(a))
    ensures NameSet(a + b) == NameSet(a) + NameSet(b)
  {
    var all := a + b;
    if NewNames(all, used) {
      assert forall i :: 0 <= i < |a| ==> a[i] == all[i];
      assert forall i :: 0 <= i < |b| ==> b[i] == all[|a| + i];
      forall i, j | 0 <= i < |b| && 0 <= j < |a| ensures b[i] != a[j] {
        assert all[j] != all[|a| + i];
      }
    }
    if NewNames(a, used) && NewNames(b, used + NameSet(a)) {
      forall i, j | 0 <= i < j < |all| ensures all[i] != all[j] {
        if i < |a| <= j {
          assert all[i] in NameSet(a) && all[j] == b[j - |a|];
        }
      }
    }
  }

  datatype TreeError = DuplicateName | MissingId | ClassWithoutChildren

  datatype Labels = Labels(nextId: nat, lookup: set<string>, ids: map<string, nat>)

  /** What visiting nodes with these names and leaves changes. */
  ghost predicate Labelled(before: Labels, after: Labels, names: seq<string>, leaves: seq<string>) {
    && after.lookup == before.lookup + NameSet(names)
    && after.nextId == before.nextId + |leaves|
    && Numbered(leaves, before.nextId, after.ids)
    && after.ids.Keys == before.ids.Keys + NameSet(leaves)
    && forall n :: n in before.lookup && n in before.ids ==> n in after.ids && after.ids[n] == before.ids[n]
  }

  lemma LabelledFurther(a: Labels, b: Labels, c: Labels, names: seq<string>, leaves: seq<string>, more: seq<string>, moreLeaves: seq<string>)
    requires Labelled(a, b, names, leaves) && Labelled(b, c, more, moreLeaves)
    requires forall n :: n in leaves ==> n in names
    ensures Labelled(a, c, names + more, leaves + moreLeaves)
  {
    NewNamesSplit(names, more, {});
    NewNamesSplit(leaves, moreLeaves, {});
    var all := leaves + moreLeaves;
    forall i | 0 <= i < |all| ensures all[i] in c.ids && c.ids[all[i]] == a.nextId + i {
      if i < |leaves| {
        assert leaves[i] in NameSet(names);
      } else {
        assert all[i] == moreLeaves[i - |leaves|];
      }
    }
  }

  /** The state that init_tree's visitor shares between its calls. */
  class Labeller {
    var nextId: nat
    var lookup: set<string>
    var ids: map<string, nat>

    constructor ()
      ensures Now() == Labels(1, {}, map[])
    {
      nextId, lookup, ids := 1, {}, map[];
    }

    ghost function Now(): Labels
      reads this
    {
      Labels(nextId, lookup, ids)
    }

    method Visit(t: Tree) returns (r: Result<(), TreeError>)
      modifies this
      ensures r.Success? <==> NewNames(Names(t), old(lookup))
      ensures r.Success? ==> Labelled(old(Now()), Now(), Names(t), Leaves(t))
      decreases t
    {
      ghost var start := Now();
      NewNamesSplit([t.name], NamesOf(t.children), lookup);
      if t.name in lookup {
        return Failure(DuplicateName);
      }
      lookup := lookup + {t.name};
      if t.children == [] {
        ids := ids[t.name := nextId];
        nextId := nextId + 1;
        return Success(());
      }
      ghost var entered := Now();
      assert entered.lookup == start.lookup + NameSet([t.name]);
      assert t.children[..0] == [];
      for k := 0 to |t.children|
        invariant NewNames(NamesOf(t.children[..k]), entered.lookup)
        invariant Labelled(entered, Now(), NamesOf(t.children[..k]), LeavesOf(t.children[..k]))
      {
        ghost var done, middle := t.children[..k], Now();
        NamesWithChild(t.children, k, entered.lookup);
        PrefixIsNew(t.children, k + 1, entered.lookup);
        r := Visit(t.children[k]);
        if r.Failure? {
          return;
        }
        LeavesWithChild(t.children, k);
        LeavesAreNames(done);
        LabelledFurther(entered, middle, Now(), NamesOf(done), LeavesOf(done), Names(t.children[k]), Leaves(t.children[k]));
      }
      assert t.children[..|t.children|] == t.children;
      LabelledFurther(start, entered, Now(), [t.name], [], NamesOf(t.children), LeavesOf(t.children));
      assert [] + LeavesOf(t.children) == Leaves(t);
      r := Success(());
    }
  }

  lemma NamesWithChild(ts: seq<Tree>, k: nat, used: set<string>)
    requires k < |ts|
    ensures NamesOf(ts[..k + 1]) == NamesOf(ts[..k]) + Names(ts[k])
    ensures NewNames(NamesOf(ts[..k + 1]), used) <==>
              NewNames(NamesOf(ts[..k]), used) && NewNames(Names(ts[k]), used + NameSet(NamesOf(ts[..k])))
    ensures NameSet(NamesOf(ts[..k + 1])) == NameSet(NamesOf(ts[..k])) + NameSet(Names(ts[k]))
  {
    assert ts[..k + 1] == ts[..k] + [ts[k]];
    NamesOfAppend(ts[..k], ts[k]);
    NewNamesSplit(NamesOf(ts[..k]), Names(ts[k]), used);
  }

  /** A child with a clashing name makes the whole list of names clash. */
  lemma PrefixIsNew(ts: seq<Tree>, k: nat, used: set<string>)
    requires k <= |ts|
    ensures NewNames(NamesOf(ts), used) ==> NewNames(NamesOf(ts[..k]), used)
  {
    NamesOfSplit(ts, k);
    NewNamesSplit(NamesOf(ts[..k]), NamesOf(ts[k..]), used);
  }

  lemma {:induction false} LeavesAreNames(ts: seq<Tree>)
    ensures forall n :: n in LeavesOf(ts) ==> n in NamesOf(ts)
    decreases ts, 1
  {
    if ts != [] {
      LeafIsName(ts[0]);
      LeavesAreNames(ts[1..]);
    }
  }

  lemma {:induction false} LeafIsName(t: Tree)
    ensures forall n :: n in Leaves(t) ==> n in Names(t)
    decreases t, 0
  {
    LeavesAreNames(t.children);
  }

  /** Numbers the leaves of a hierarchy whose names are all different: the leaves get 1, 2, 3 and so on. */
  method InitTree(root: Tree) returns (r: Result<map<string, nat>, TreeError>)
    ensures r.Success? <==> Distinct(Names(root))
    ensures r.Success? ==> Numbered(Leaves(root), 1, r.value) && r.value.Keys == NameSet(Leaves(root))
  {
    var labeller := new Labeller();
    var done := labeller.Visit(root);
    if done.Failure? {
      return Failure(done.error);
    }
    r := Success(labeller.ids);
  }

  /** lo and hi are the smallest and the largest id of some leaves. */
  ghost predicate Spans(leaves: seq<string>, ids: map<string, nat>, lo: nat, hi: nat) {
    && (forall n :: n in leaves ==> n in ids && lo <= ids[n] <= hi)
    && (exists n :: n in leaves && ids[n] == lo)
    && (exists n :: n in leaves && ids[n] == hi)
  }

  /** The smaller and the larger of two numbers, of which the first may be missing. */
  function Min(a: Option<nat>, b: nat): nat {
    if a.None? || b < a.value then b else a.value
  }

  function Max(a: Option<nat>, b: nat): nat {
    if a.None? || b > a.value then b else a.value
  }

  /** The property id_range of a node. */
  method IdRange(t: Tree, ids: map<string, nat>) returns (r: Result<(nat, nat), TreeError>)
    ensures r.Success? <==> forall n :: n in Leaves(t) ==> n in ids
    ensures r.Success? ==> Spans(Leaves(t), ids, r.value.0, r.value.1)
    decreases t
  {
    if t.children == [] {
      return if t.name in ids then Success((ids[t.name], ids[t.name])) else Failure(MissingId);
    }
    var lo: Option<nat> := None;
    var hi: Option<nat> := None;
    assert t.children[..0] == [];
    for k := 0 to |t.children|
      invariant if k == 0 then lo == None && hi == None
                else lo.Some? && hi.Some? && Spans(LeavesOf(t.children[..k]), ids, lo.value, hi.value)
      invariant forall n :: n in LeavesOf(t.children[..k]) ==> n in ids
    {
      var c := t.children[k];
      LeavesWithChild(t.children, k);
      LeavesOfMember(t.children, k);
      r := IdRange(c, ids);
      if r.Failure? {
        return;
      }
      var (a, b) := r.value;
      lo, hi := Some(Min(lo, a)), Some(Max(hi, b));
    }
    assert t.children[..|t.children|] == t.children;
    r := Success((lo.value, hi.value));
  }

  lemma LeavesWithChild(ts: seq<Tree>, k: nat)
    requires k < |ts|
    ensures LeavesOf(ts[..k + 1]) == LeavesOf(ts[..k]) + Leaves(ts[k])
  {
    LeavesOfAppend(ts[..k], ts[k]);
    assert ts[..k + 1] == ts[..k] + [ts[k]];
  }

  lemma {:induction false} LeavesOfMember(ts: seq<Tree>, k: nat)
    requires k < |ts|
    ensures forall n :: n in Leaves(ts[k]) ==> n in LeavesOf(ts)
  {
    if k > 0 {
      LeavesOfMember(ts[1..], k - 1);
    }
  }

  /** The ids of a stretch of the leaves run from the stretch's first position to its last one. */
  lemma SpanOfStretch(pre: seq<string>, own: seq<string>, post: seq<string>, first: nat, ids: map<string, nat>)
    requires own != [] && Numbered(pre + own + post, first, ids)
    ensures Numbered(own, first + |pre|, ids)
    ensures forall lo, hi :: Spans(own, ids, lo, hi) ==> lo == first + |pre| && hi == first + |pre| + |own| - 1
  {
    var all := pre + own + post;
    forall i | 0 <= i < |own| ensures own[i] in ids && ids[own[i]] == first + |pre| + i {
      assert all[|pre| + i] == own[i];
    }
    forall lo, hi | Spans(own, ids, lo, hi)
      ensures lo == first + |pre| && hi == first + |pre| + |own| - 1
    {
      assert own[0] in own && own[|own| - 1] in own;
    }
  }

  lemma StretchIsExact(pre: seq<string>, own: seq<string>, post: seq<string>, first: nat, ids: map<string, nat>, lo: nat, hi: nat)
    requires own != [] && Numbered(pre + own + post, first, ids) && Spans(own, ids, lo, hi)
    ensures forall leaf :: leaf in pre + own + post ==> (lo <= ids[leaf] <= hi <==> leaf in own)
  {
    SpanOfStretch(pre, own, post, first, ids);
    var all := pre + own + post;
    forall i | 0 <= i < |all| ensures lo <= ids[all[i]] <= hi <==> all[i] in own {
      if lo <= ids[all[i]] <= hi {
        assert all[i] == own[i - |pre|];
      }
    }
  }

  /** A leaf's id lies in the range of a node exactly when the leaf is under that node. */
  lemma RangesAreExact(root: Tree, node: Tree, first: nat, ids: map<string, nat>, lo: nat, hi: nat)
    requires InTree(root, node) && Numbered(Leaves(root), first, ids) && Spans(Leaves(node), ids, lo, hi)
    ensures forall leaf :: leaf in Leaves(root) ==> (lo <= ids[leaf] <= hi <==> leaf in Leaves(node))
  {
    var pre, post := LeavesAreAStretch(root, node);
    LeavesNotEmpty(node);
    StretchIsExact(pre, Leaves(node), post, first, ids, lo, hi);
  }

  // ----- type tags

  datatype Tag = LeafTag(name: string, value: nat) | FirstTag(name: string, value: nat) | LastTag(name: string, value: nat)

  /** The hierarchy as type_tags sees it: what lies under a final type is ignored. */
  function Prune(t: Tree): Tree
    decreases t, 0
  {
    if t.final then t.(children := []) else t.(children := PruneAll(t.children))
  }

  function PruneAll(ts: seq<Tree>): (ps: seq<Tree>)
    ensures |ps| == |ts|
    decreases ts, 1
  {
    if ts == [] then [] else [Prune(ts[0])] + PruneAll(ts[1..])
  }

  lemma {:induction false} PruneAllAt(ts: seq<Tree>, k: nat)
    requires k < |ts|
    ensures PruneAll(ts)[k] == Prune(ts[k])
  {
    if k > 0 {
      PruneAllAt(ts[1..], k - 1);
    }
  }

  /** Every type that is not final has derived types. */
  ghost predicate NoEmptyBase(t: Tree)
    decreases t
  {
    t.final || (t.children != [] && forall c :: c in t.children ==> NoEmptyBase(c))
  }

  /** The tags of a pruned hierarchy whose first leaf gets the value `first`. */
  function TagsOf(t: Tree, first: nat): seq<Tag>
    decreases t, 0
  {
    if t.children == [] then [LeafTag(t.name, first)]
    else
      LeavesNotEmpty(t);
      TagsOfAll(t.children, first) + [FirstTag(t.name, first), LastTag(t.name, first + |Leaves(t)| - 1)]
  }

  function TagsOfAll(ts: seq<Tree>, first: nat): seq<Tag>
    decreases ts, 1
  {
    if ts == [] then [] else TagsOf(ts[0], first) + TagsOfAll(ts[1..], first + |Leaves(ts[0])|)
  }

  class TagCollector {
    var nextValue: nat
    var tags: seq<Tag>

    constructor ()
      ensures nextValue == 1 && tags == []
    {
      nextValue, tags := 1, [];
    }

    /** Returns the first and the last value given to a final type under t. */
    method Visit(t: Tree) returns (r: Result<(nat, nat), TreeError>)
      modifies this
      ensures r.Success? <==> NoEmptyBase(t)
      ensures r.Success? ==> nextValue == old(nextValue) + |Leaves(Prune(t))|
      ensures r.Success? ==> tags == old(tags) + TagsOf(Prune(t), old(nextValue))
      ensures r.Success? ==> r.value == (old(nextValue), nextValue - 1)
      decreases t, 0
    {
      if t.final {
        var value := nextValue;
        nextValue := nextValue + 1;
        tags := tags + [LeafTag(t.name, value)];
        return Success((value, value));
      }
      var visited := VisitDerived(t.children);
      if visited.Failure? {
        return Failure(visited.error);
      }
      var (first, last) := visited.value;
      if first.None? || last.None? {
        return Failure(ClassWithoutChildren);
      }
      tags := tags + [FirstTag(t.name, first.value)];
      tags := tags + [LastTag(t.name, last.value)];
      r := Success((first.value, last.value));
    }

    /** The loop over the derived types, with the smallest and the largest value seen. */
    method VisitDerived(ts: seq<Tree>) returns (r: Result<(Option<nat>, Option<nat>), TreeError>)
      modifies this
      ensures r.Success? <==> forall c :: c in ts ==> NoEmptyBase(c)
      ensures r.Success? ==> nextValue == old(nextValue) + |LeavesOf(PruneAll(ts))|
      ensures r.Success? ==> tags == old(tags) + TagsOfAll(PruneAll(ts), old(nextValue))
      ensures r.Success? ==> r.value == if ts == [] then (None, None) else (Some(old(nextValue)), Some(nextValue - 1))
      ensures r.Success? && ts != [] ==> nextValue > old(nextValue)
      decreases ts, 1
    {
      var first: Option<nat> := None;
      var last: Option<nat> := None;
      ghost var value0, tags0, pruned := nextValue, tags, PruneAll(ts);
      assert pruned[..0] == [] && tags0 + [] == tags0;
      for k := 0 to |ts|
        invariant if k == 0 then first == None && last == None else first == Some(value0) && last == Some(nextValue - 1)
        invariant nextValue == value0 + |LeavesOf(pruned[..k])| && (k > 0 ==> nextValue > value0)
        invariant tags == tags0 + TagsOfAll(pruned[..k], value0)
        invariant forall c :: c in ts[..k] ==> NoEmptyBase(c)
      {
        NextChild(ts, k, tags0, value0);
        var visited := Visit(ts[k]);
        if visited.Failure? {
          return Failure(visited.error);
        }
        var (low, high) := visited.value;
        first, last := Some(Min(first, low)), Some(Max(last, high));
      }
      assert pruned[..|ts|] == pruned;
      r := Success((first, last));
    }
  }

  lemma {:induction false} TagsOfAllAppend(ts: seq<Tree>, c: Tree, first: nat)
    ensures TagsOfAll(ts + [c], first) == TagsOfAll(ts, first) + TagsOf(c, first + |LeavesOf(ts)|)
  {
    if ts == [] {
      assert ts + [c] == [c] && [c][1..] == [];
    } else {
      assert (ts + [c])[1..] == ts[1..] + [c];
      TagsOfAllAppend(ts[1..], c, first + |Leaves(ts[0])|);
    }
  }

  /** What visiting one more child adds. */
  lemma NextChild(ts: seq<Tree>, k: nat, tags: seq<Tag>, first: nat)
    requires k < |ts|
    ensures var pruned := PruneAll(ts);
            && Leaves(Prune(ts[k])) != []
            && LeavesOf(pruned[..k + 1]) == LeavesOf(pruned[..k]) + Leaves(Prune(ts[k]))
            && tags + TagsOfAll(pruned[..k + 1], first) ==
               tags + TagsOfAll(pruned[..k], first) + TagsOf(Prune(ts[k]), first + |LeavesOf(pruned[..k])|)
  {
    var pruned := PruneAll(ts);
    PruneAllAt(ts, k);
    LeavesWithChild(pruned, k);
    TagsWithChild(tags, pruned, k, first);
    LeavesNotEmpty(pruned[k]);
  }

  lemma TagsWithChild(tags: seq<Tag>, ts: seq<Tree>, k: nat, first: nat)
    requires k < |ts|
    ensures tags + TagsOfAll(ts[..k + 1], first) ==
            tags + TagsOfAll(ts[..k], first) + TagsOf(ts[k], first + |LeavesOf(ts[..k])|)
  {
    assert ts[..k + 1] == ts[..k] + [ts[k]];
    TagsOfAllAppend(ts[..k], ts[k], first);
  }

  /** The tags of a hierarchy, or an error for a base class without derived types. */
  method TypeTags(root: Tree) returns (r: Result<seq<Tag>, TreeError>)
    ensures r.Success? <==> NoEmptyBase(root)
    ensures r.Success? ==> r.value == TagsOf(Prune(root), 1)
  {
    var collector := new TagCollector();
    var done := collector.Visit(root);
    if done.Failure? {
      return Failure(done.error);
    }
    r := Success(collector.tags);
  }

  /** The tags of a node are among those of the hierarchy; its leaves start where its stretch starts. */
  lemma {:induction false} TagsOfNode(t: Tree, node: Tree, first: nat) returns (pre: seq<string>, post: seq<string>)
    requires InTree(t, node)
    ensures Leaves(t) == pre + Leaves(node) + post
    ensures forall tag :: tag in TagsOf(node, first + |pre|) ==> tag in TagsOf(t, first)
    decreases t, 0
  {
    if t == node {
      pre, post := [], [];
    } else {
      var c :| c in t.children && InTree(c, node);
      pre, post := TagsOfNodeIn(t.children, c, node, first);
    }
  }

  lemma {:induction false} TagsOfNodeIn(ts: seq<Tree>, c: Tree, node: Tree, first: nat) returns (pre: seq<string>, post: seq<string>)
    requires c in ts && InTree(c, node)
    ensures LeavesOf(ts) == pre + Leaves(node) + post
    ensures forall tag :: tag in TagsOf(node, first + |pre|) ==> tag in TagsOfAll(ts, first)
    decreases ts, 1
  {
    if ts[0] == c {
      pre, post := TagsOfNode(c, node, first);
      assert pre + Leaves(node) + post + LeavesOf(ts[1..]) == pre + Leaves(node) + (post + LeavesOf(ts[1..]));
      post := post + LeavesOf(ts[1..]);
    } else {
      pre, post := TagsOfNodeIn(ts[1..], c, node, first + |Leaves(ts[0])|);
      assert Leaves(ts[0]) + (pre + Leaves(node) + post) == (Leaves(ts[0]) + pre) + Leaves(node) + post;
      pre := Leaves(ts[0]) + pre;
    }
  }

  /**
   The two schemes agree: with ids given out as by init_tree, every leaf's tag has its id and
   every other class is tagged with the two ends of its id range.
   */
  lemma TagsMatchIds(t: Tree, node: Tree, first: nat, ids: map<string, nat>, lo: nat, hi: nat)
    requires InTree(t, node) && Numbered(Leaves(t), first, ids) && Spans(Leaves(node), ids, lo, hi)
    ensures if node.children == [] then node.name in ids && LeafTag(node.name, ids[node.name]) in TagsOf(t, first)
            else FirstTag(node.name, lo) in TagsOf(t, first) && LastTag(node.name, hi) in TagsOf(t, first)
  {
    var pre, post := TagsOfNode(t, node, first);
    LeavesNotEmpty(node);
    SpanOfStretch(pre, Leaves(node), post, first, ids);
    assert lo == first + |pre| && hi == lo + |Leaves(node)| - 1;
    TagsOnTop(node, lo, hi);
    if node.children == [] {
      assert Leaves(node)[0] == node.name;
    }
  }

  /** Every tag is that of some node: a leaf, or a class with the first or the last value under it. */
  lemma {:induction false} TagHasNode(t: Tree, first: nat, tag: Tag) returns (node: Tree, pre: seq<string>, post: seq<string>)
    requires tag in TagsOf(t, first)
    ensures InTree(t, node) && tag.name == node.name && tag in OwnTags(node, first + |pre|)
    ensures Leaves(t) == pre + Leaves(node) + post
    decreases t, 0
  {
    if tag in OwnTags(t, first) {
      node, pre, post := t, [], [];
    } else {
      var c;
      c, node, pre, post := TagHasChild(t.children, first, tag);
    }
  }

  lemma {:induction false} TagHasChild(ts: seq<Tree>, first: nat, tag: Tag)
    returns (c: Tree, node: Tree, pre: seq<string>, post: seq<string>)
    requires tag in TagsOfAll(ts, first)
    ensures c in ts && InTree(c, node) && tag.name == node.name && tag in OwnTags(node, first + |pre|)
    ensures LeavesOf(ts) == pre + Leaves(node) + post
    decreases ts, 1
  {
    if tag in TagsOf(ts[0], first) {
      c := ts[0];
      node, pre, post := TagHasNode(c, first, tag);
      StretchGrows([], pre, Leaves(node), post, LeavesOf(ts[1..]));
      post := post + LeavesOf(ts[1..]);
    } else {
      c, node, pre, post := TagHasChild(ts[1..], first + |Leaves(ts[0])|, tag);
      StretchGrows(Leaves(ts[0]), pre, Leaves(node), post, []);
      pre := Leaves(ts[0]) + pre;
    }
  }

  lemma StretchGrows(a: seq<string>, pre: seq<string>, own: seq<string>, post: seq<string>, b: seq<string>)
    ensures a + (pre + own + post) + b == (a + pre) + own + (post + b)
    ensures [] + pre == pre && post + [] == post
    ensures pre + own + post + b == pre + own + (post + b)
    ensures a + (pre + own + post) == (a + pre) + own + post
  {
  }

  /** The tags of a node itself, when the first leaf under it has the value `first`. */
  function OwnTags(node: Tree, first: nat): seq<Tag> {
    if node.children == [] then [LeafTag(node.name, first)]
    else
      LeavesNotEmpty(node);
      [FirstTag(node.name, first), LastTag(node.name, first + |Leaves(node)| - 1)]
  }

  /**
   There is no other tag: each one belongs to a node and has its id, or is the first or the last
   one of its id range.
   */
  lemma NoOtherTags(t: Tree, first: nat, ids: map<string, nat>, tag: Tag) returns (node: Tree)
    requires Numbered(Leaves(t), first, ids) && tag in TagsOf(t, first)
    ensures InTree(t, node) && tag.name == node.name
    ensures tag.LeafTag? <==> node.children == []
    ensures tag.LeafTag? ==> node.name in ids && tag.value == ids[node.name]
    ensures forall lo, hi :: Spans(Leaves(node), ids, lo, hi) ==>
              (tag.FirstTag? ==> tag.value == lo) && (tag.LastTag? ==> tag.value == hi)
  {
    var pre, post;
    node, pre, post := TagHasNode(t, first, tag);
    LeavesNotEmpty(node);
    SpanOfStretch(pre, Leaves(node), post, first, ids);
    if node.children == [] {
      assert Leaves(node)[0] == node.name;
    }
  }

  ghost predicate DistinctTags(tags: seq<Tag>) {
    forall i, j :: 0 <= i < j < |tags| ==> tags[i] != tags[j]
  }

  lemma {:induction false} TagsAreNamed(t: Tree, first: nat)
    ensures forall tag :: tag in TagsOf(t, first) ==> tag.name in Names(t)
    decreases t, 0
  {
    AllTagsAreNamed(t.children, first);
  }

  lemma {:induction false} AllTagsAreNamed(ts: seq<Tree>, first: nat)
    ensures forall tag :: tag in TagsOfAll(ts, first) ==> tag.name in NamesOf(ts)
    decreases ts, 1
  {
    if ts != [] {
      TagsAreNamed(ts[0], first);
      AllTagsAreNamed(ts[1..], first + |Leaves(ts[0])|);
    }
  }

  lemma DistinctTogether(a: seq<Tag>, b: seq<Tag>, names: seq<string>, others: seq<string>)
    requires DistinctTags(a) && DistinctTags(b) && Distinct(names + others)
    requires (forall tag :: tag in a ==> tag.name in names) && (forall tag :: tag in b ==> tag.name in others)
    ensures DistinctTags(a + b)
  {
    forall i, j | 0 <= i < j < |a + b|
      ensures (a + b)[i] != (a + b)[j]
    {
      if i < |a| <= j {
        var m :| 0 <= m < |names| && names[m] == a[i].name;
        var n :| 0 <= n < |others| && others[n] == b[j - |a|].name;
        assert (names + others)[m] != (names + others)[|names| + n];
      }
    }
  }

  lemma DistinctParts(names: seq<string>, others: seq<string>)
    requires Distinct(names + others)
    ensures Distinct(names) && Distinct(others) && Distinct(others + names)
  {
    var all, turned := names + others, others + names;
    assert forall i :: 0 <= i < |names| ==> names[i] == all[i] == turned[|others| + i];
    assert forall i :: 0 <= i < |others| ==> others[i] == all[|names| + i] == turned[i];
  }

  /** With names that are all different, as init_tree demands, no tag is given twice. */
  lemma {:induction false} NoTagTwice(t: Tree, first: nat)
    requires Distinct(Names(t))
    ensures DistinctTags(TagsOf(t, first))
    decreases t, 0
  {
    DistinctParts([t.name], NamesOf(t.children));
    if t.children != [] {
      NoTagTwiceIn(t.children, first);
      AllTagsAreNamed(t.children, first);
      LeavesNotEmpty(t);
      DistinctTogether(TagsOfAll(t.children, first), OwnTags(t, first), NamesOf(t.children), [t.name]);
    }
  }

  lemma {:induction false} NoTagTwiceIn(ts: seq<Tree>, first: nat)
    requires Distinct(NamesOf(ts))
    ensures DistinctTags(TagsOfAll(ts, first))
    decreases ts, 1
  {
    if ts != [] {
      DistinctParts(Names(ts[0]), NamesOf(ts[1..]));
      NoTagTwice(ts[0], first);
      NoTagTwiceIn(ts[1..], first + |Leaves(ts[0])|);
      TagsAreNamed(ts[0], first);
      AllTagsAreNamed(ts[1..], first + |Leaves(ts[0])|);
      DistinctTogether(TagsOf(ts[0], first), TagsOfAll(ts[1..], first + |Leaves(ts[0])|), Names(ts[0]), NamesOf(ts[1..]));
    }
  }

  lemma TagsOnTop(node: Tree, first: nat, last: nat)
    requires last + 1 == first + |Leaves(node)|
    ensures if node.children == [] then LeafTag(node.name, first) in TagsOf(node, first)
            else FirstTag(node.name, first) in TagsOf(node, first) && LastTag(node.name, last) in TagsOf(node, first)
  {
    var own := TagsOf(node, first);
    if node.children == [] {
      assert own[0] in own;
    } else {
      assert own[|own| - 2] in own && own[|own| - 1] in own;
    }
  }

  /** The final types are exactly those without derived types. */
  ghost predicate FinalsAreLeaves(t: Tree)
    decreases t
  {
    (t.final <==> t.children == []) && forall c :: c in t.children ==> FinalsAreLeaves(c)
  }

  /** The registry refuses types derived from a final type. */
  ghost predicate NothingDerivesFromFinal(t: Tree)
    decreases t
  {
    (t.final ==> t.children == []) && forall c :: c in t.children ==> NothingDerivesFromFinal(c)
  }

  /** type_tags succeeds on what the registry accepts exactly when the final types are the leaves. */
  lemma {:induction false} AcceptedFinalsAreLeaves(t: Tree)
    ensures FinalsAreLeaves(t) <==> NoEmptyBase(t) && NothingDerivesFromFinal(t)
    decreases t
  {
    forall c | c in t.children ensures FinalsAreLeaves(c) <==> NoEmptyBase(c) && NothingDerivesFromFinal(c) {
      AcceptedFinalsAreLeaves(c);
    }
  }

  lemma {:induction false} PruningKeeps(t: Tree)
    requires FinalsAreLeaves(t)
    ensures Prune(t) == t && NoEmptyBase(t)
    decreases t
  {
    forall k | 0 <= k < |t.children| ensures PruneAll(t.children)[k] == t.children[k] && NoEmptyBase(t.children[k]) {
      PruningKeeps(t.children[k]);
      PruneAllAt(t.children, k);
    }
    assert PruneAll(t.children) == t.children;
  }

  /** The tags are those of the numbering, each one once, and no others. */
  lemma SchemesGiveNothingElse(root: Tree, ids: map<string, nat>, tag: Tag) returns (node: Tree)
    requires NothingDerivesFromFinal(root) && NoEmptyBase(root) && Distinct(Names(root))
    requires Numbered(Leaves(root), 1, ids) && tag in TagsOf(Prune(root), 1)
    ensures DistinctTags(TagsOf(Prune(root), 1)) && InTree(root, node) && tag.name == node.name
    ensures tag.LeafTag? <==> node.children == []
    ensures tag.LeafTag? ==> node.name in ids && tag.value == ids[node.name]
    ensures forall lo, hi :: Spans(Leaves(node), ids, lo, hi) ==>
              (tag.FirstTag? ==> tag.value == lo) && (tag.LastTag? ==> tag.value == hi)
  {
    AcceptedFinalsAreLeaves(root);
    PruningKeeps(root);
    NoTagTwice(root, 1);
    node := NoOtherTags(root, 1, ids, tag);
  }

  /** On every hierarchy that the registry accepts and type_tags succeeds on, the two generators give the same numbers and ranges. */
  lemma SchemesAgree(root: Tree, node: Tree, ids: map<string, nat>, lo: nat, hi: nat)
    requires NothingDerivesFromFinal(root) && NoEmptyBase(root) && InTree(root, node)
    requires Numbered(Leaves(root), 1, ids) && Spans(Leaves(node), ids, lo, hi)
    ensures var tags := TagsOf(Prune(root), 1);
            if node.children == [] then node.name in ids && LeafTag(node.name, ids[node.name]) in tags
            else FirstTag(node.name, lo) in tags && LastTag(node.name, hi) in tags
  {
    AcceptedFinalsAreLeaves(root);
    PruningKeeps(root);
    TagsMatchIds(root, node, 1, ids, lo, hi);
  }
}
