/** Authorization filters over metadata, and JSON containment. */
module Filters {
  import opened Prelude

  datatype Json =
    | Null
    | Bool(b: bool)
    | Num(n: int)
    | Str(s: string)
    | Arr(items: seq<Json>)
    | Obj(fields: map<string, Json>)

  // ------------------------------------------------------------ containment

  /** `is_jsonb_contained(superset, subset)` on two dictionaries. */
  predicate Contains(sup: Json, sub: Json)
    requires sup.Obj? && sub.Obj?
    decreases sub
  {
    forall k :: k in sub.fields ==>
      && k in sup.fields
      && var x, y := sup.fields[k], sub.fields[k];
         if y.Obj? && x.Obj? then Contains(x, y) else x == y
  }

  lemma {:induction false} ContainsReflexive(a: Json)
    requires a.Obj?
    ensures Contains(a, a)
    decreases a
  {
    forall k | k in a.fields && a.fields[k].Obj? ensures Contains(a.fields[k], a.fields[k]) {
      ContainsReflexive(a.fields[k]);
    }
  }

  /** The value at a path of keys, if there is one. */
  function At(j: Json, path: seq<string>): Option<Json>
    decreases |path|
  {
    if path == [] then Some(j)
    else if j.Obj? && path[0] in j.fields then At(j.fields[path[0]], path[1..])
    else None
  }

  /** Where the subset has a dictionary the superset has one, and where it has another
      value the superset has the same. */
  ghost predicate CoveredAt(sup: Json, sub: Json, path: seq<string>) {
    At(sub, path).Some? ==>
      && At(sup, path).Some?
      && if At(sub, path).value.Obj? then At(sup, path).value.Obj? else At(sup, path) == At(sub, path)
  }

  /** Containment by paths: every path of the subset is covered. */
  lemma {:induction false} ContainsByPaths(sup: Json, sub: Json)
    requires sup.Obj? && sub.Obj?
    ensures Contains(sup, sub) <==> forall path :: CoveredAt(sup, sub, path)
    decreases sub
  {
    if Contains(sup, sub) {
      forall path ensures CoveredAt(sup, sub, path) { PathCovered(sup, sub, path); }
    }
    if forall path :: CoveredAt(sup, sub, path) {
      forall k | k in sub.fields
        ensures k in sup.fields
        ensures var x, y := sup.fields[k], sub.fields[k]; if y.Obj? && x.Obj? then Contains(x, y) else x == y
      {
        assert CoveredAt(sup, sub, [k]);
        assert [k][1..] == [] && At(sub, [k]) == Some(sub.fields[k]);
        var x, y := sup.fields[k], sub.fields[k];
        assert At(sup, [k]) == Some(x);
        if y.Obj? && x.Obj? {
          ContainsByPaths(x, y);
          forall path ensures CoveredAt(x, y, path) {
            assert CoveredAt(sup, sub, [k] + path);
            assert ([k] + path)[1..] == path;
          }
        }
      }
    }
  }

  lemma {:induction false} PathCovered(sup: Json, sub: Json, path: seq<string>)
    requires sup.Obj? && sub.Obj? && Contains(sup, sub)
    ensures CoveredAt(sup, sub, path)
    decreases |path|
  {
    if path != [] && path[0] in sub.fields {
      var x, y := sup.fields[path[0]], sub.fields[path[0]];
      if x.Obj? && y.Obj? { PathCovered(x, y, path[1..]); }
    }
  }

  lemma {:induction false} ContainsTransitive(a: Json, b: Json, c: Json)
    requires a.Obj? && b.Obj? && c.Obj? && Contains(a, b) && Contains(b, c)
    ensures Contains(a, c)
    decreases c
  {
    forall k | k in c.fields
      ensures k in a.fields
      ensures var x, z := a.fields[k], c.fields[k]; if z.Obj? && x.Obj? then Contains(x, z) else x == z
    {
      var x, y, z := a.fields[k], b.fields[k], c.fields[k];
      if x.Obj? && y.Obj? && z.Obj? {
        ContainsTransitive(x, y, z);
      }
    }
  }

  lemma {:induction false} ContainsAntisymmetric(a: Json, b: Json)
    requires a.Obj? && b.Obj? && Contains(a, b) && Contains(b, a)
    ensures a == b
    decreases a
  {
    assert a.fields.Keys == b.fields.Keys;
    forall k | k in a.fields ensures a.fields[k] == b.fields[k] {
      if a.fields[k].Obj? && b.fields[k].Obj? {
        ContainsAntisymmetric(a.fields[k], b.fields[k]);
      }
    }
    assert a.fields == b.fields;
  }

  // ---------------------------------------------------------------- filters

  /** What a key is compared with: a plain value, or a dictionary of operators of
      which only the first entry is read. */
  datatype Condition = Equals(value: Json) | Operators(ops: seq<(string, Json)>)

  datatype Leaf = Leaf(key: string, condition: Condition)

  /** A `$or` or `$and` entry need not be a list. */
  datatype Groups = NotAList | GroupList(filters: seq<Filter>)

  datatype Filter = Filter(orGroups: Option<Groups>, andGroups: Option<Groups>, leaves: seq<Leaf>)

  /** What matching yields: a verdict, or an exception. */
  datatype Verdict = Matches(yes: bool) | Raises

  predicate IsEmpty(f: Filter) {
    f.orGroups.None? && f.andGroups.None? && f.leaves == []
  }

  function WithoutOr(f: Filter): Filter { f.(orGroups := None) }

  function WithoutAnd(f: Filter): Filter { f.(andGroups := None) }

  predicate Proper(g: Groups) {
    g.GroupList? && |g.filters| >= 2
  }

  /** `_validate_filter_structure`: whether it returns without raising. */
  predicate Valid(f: Filter, level: nat)
    decreases 3 - level
  {
    level <= 2 &&
    (f.orGroups.Some? ==>
       && Proper(f.orGroups.value)
       && (forall i :: 0 <= i < |f.orGroups.value.filters| ==> Valid(f.orGroups.value.filters[i], level + 1))
       && (!IsEmpty(WithoutOr(f)) ==> Valid(WithoutOr(f), level + 1))) &&
    (f.andGroups.Some? ==>
       && Proper(f.andGroups.value)
       && (forall i :: 0 <= i < |f.andGroups.value.filters| ==> Valid(f.andGroups.value.filters[i], level + 1))
       && (!IsEmpty(WithoutAnd(f)) ==> Valid(WithoutAnd(f), level + 1)))
  }

  function Get(metadata: map<string, Json>, key: string): Option<Json> {
    if key in metadata then Some(metadata[key]) else None
  }

  predicate ListHas(list: Json, wanted: Json) {
    list.Arr? && if wanted.Arr? then forall i :: 0 <= i < |wanted.items| ==> wanted.items[i] in list.items
                 else wanted in list.items
  }

  /** One key of the regular filter logic. */
  function CheckLeaf(l: Leaf, metadata: map<string, Json>): Verdict {
    match l.condition
    case Equals(v) => Matches(Get(metadata, l.key) == Some(v))
    case Operators(ops) =>
      if ops == [] then Raises
      else if ops[0].0 == "$eq" then Matches(Get(metadata, l.key) == Some(ops[0].1))
      else if ops[0].0 == "$contains" then
        Matches(Get(metadata, l.key).Some? && ListHas(Get(metadata, l.key).value, ops[0].1))
      else Matches(true)
  }

  function CheckLeaves(ls: seq<Leaf>, metadata: map<string, Json>): Verdict {
    if ls == [] then Matches(true)
    else
      var v := CheckLeaf(ls[0], metadata);
      if v != Matches(true) then v else CheckLeaves(ls[1..], metadata)
  }

  /** `_check_filter_match`. */
  function Check(f: Filter, metadata: map<string, Json>, level: nat): Verdict
    decreases if level <= 3 then 4 - level else 0, 0
  {
    if level > 2 then Raises
    else if IsEmpty(f) then Matches(true)
    else if f.orGroups.Some? then
      if !Proper(f.orGroups.value) || !AllValid(f.orGroups.value.filters, level + 1) then Raises
      else
        var v := CheckAny(f.orGroups.value.filters, metadata, level + 1);
        if v != Matches(true) then v
        else if IsEmpty(WithoutOr(f)) then Matches(true)
        else Check(WithoutOr(f), metadata, level + 1)
    else if f.andGroups.Some? then
      if !Proper(f.andGroups.value) || !AllValid(f.andGroups.value.filters, level + 1) then Raises
      else
        var v := CheckAll(f.andGroups.value.filters, metadata, level + 1);
        if v != Matches(true) then v
        else if IsEmpty(WithoutAnd(f)) then Matches(true)
        else Check(WithoutAnd(f), metadata, level + 1)
    else CheckLeaves(f.leaves, metadata)
  }

  predicate AllValid(fs: seq<Filter>, level: nat) {
    forall i :: 0 <= i < |fs| ==> Valid(fs[i], level)
  }

  /** The `$or` loop: stops at the first group that matches. */
  function CheckAny(fs: seq<Filter>, metadata: map<string, Json>, level: nat): Verdict
    decreases if level <= 3 then 4 - level else 0, 1, |fs|
  {
    if fs == [] then Matches(false)
    else
      var v := Check(fs[0], metadata, level);
      if v == Matches(false) then CheckAny(fs[1..], metadata, level) else v
  }

  /** The `$and` loop: stops at the first group that does not match. */
  function CheckAll(fs: seq<Filter>, metadata: map<string, Json>, level: nat): Verdict
    decreases if level <= 3 then 4 - level else 0, 1, |fs|
  {
    if fs == [] then Matches(true)
    else
      var v := Check(fs[0], metadata, level);
      if v == Matches(true) then CheckAll(fs[1..], metadata, level) else v
  }

  // --------------------------------------------------------------- meaning

  /** A key that has a meaning: it is compared with a value, or by a first operator
      `$eq` or `$contains`. */
  predicate OrdinaryLeaf(l: Leaf) {
    l.condition.Operators? ==>
      l.condition.ops != [] && (l.condition.ops[0].0 == "$eq" || l.condition.ops[0].0 == "$contains")
  }

  ghost predicate LeafHolds(l: Leaf, metadata: map<string, Json>)
    requires OrdinaryLeaf(l)
  {
    match l.condition
    case Equals(v) => l.key in metadata && metadata[l.key] == v
    case Operators(ops) =>
      if ops[0].0 == "$eq" then l.key in metadata && metadata[l.key] == ops[0].1
      else
        && l.key in metadata && metadata[l.key].Arr?
        && forall x :: IsWanted(ops[0].1, x) ==>
             exists j :: 0 <= j < |metadata[l.key].items| && metadata[l.key].items[j] == x
  }

  /** An element a `$contains` asks for: each item of a list, or the single value. */
  predicate IsWanted(wanted: Json, x: Json) {
    if wanted.Arr? then x in wanted.items else x == wanted
  }

  /** Every key, at every depth, has a meaning. */
  predicate Ordinary(f: Filter)
    decreases f
  {
    && (f.orGroups.Some? && f.orGroups.value.GroupList? ==>
          forall i :: 0 <= i < |f.orGroups.value.filters| ==> Ordinary(f.orGroups.value.filters[i]))
    && (f.andGroups.Some? && f.andGroups.value.GroupList? ==>
          forall i :: 0 <= i < |f.andGroups.value.filters| ==> Ordinary(f.andGroups.value.filters[i]))
    && (forall i :: 0 <= i < |f.leaves| ==> OrdinaryLeaf(f.leaves[i]))
  }

  /** The plain meaning: some `$or` group, all `$and` groups, all keys. */
  ghost predicate Means(f: Filter, metadata: map<string, Json>)
    requires Ordinary(f)
    decreases f
  {
    && (f.orGroups.Some? && f.orGroups.value.GroupList? ==>
          exists i :: 0 <= i < |f.orGroups.value.filters| && Means(f.orGroups.value.filters[i], metadata))
    && (f.andGroups.Some? && f.andGroups.value.GroupList? ==>
          forall i :: 0 <= i < |f.andGroups.value.filters| ==> Means(f.andGroups.value.filters[i], metadata))
    && (forall i :: 0 <= i < |f.leaves| ==> LeafHolds(f.leaves[i], metadata))
  }

  /** A key with a meaning is judged by it, whatever the metadata.  A key without
      one never turns any metadata away: an empty operator dictionary raises, another
      operator is passed over as a match. */
  lemma LeafMeansExactly(l: Leaf)
    ensures OrdinaryLeaf(l) ==> forall metadata :: CheckLeaf(l, metadata) == Matches(LeafHolds(l, metadata))
    ensures OrdinaryLeaf(l) <==> exists metadata :: CheckLeaf(l, metadata) == Matches(false)
  {
    if OrdinaryLeaf(l) {
      assert CheckLeaf(l, map[]) == Matches(false);
      forall metadata ensures CheckLeaf(l, metadata) == Matches(LeafHolds(l, metadata)) {
        if l.condition.Operators? && l.condition.ops[0].0 == "$contains" && l.key in metadata {
          HasEveryWanted(metadata[l.key], l.condition.ops[0].1);
        }
      }
    }
  }

  /** A `$contains` matches exactly if the stored value is a list and each wanted
      element is one of its items. */
  lemma HasEveryWanted(list: Json, wanted: Json)
    ensures ListHas(list, wanted) <==>
            list.Arr? && forall x :: IsWanted(wanted, x) ==> exists j :: 0 <= j < |list.items| && list.items[j] == x
  {
    if list.Arr? && wanted.Arr?
      && forall x :: IsWanted(wanted, x) ==> exists j :: 0 <= j < |list.items| && list.items[j] == x
    {
      forall i | 0 <= i < |wanted.items| ensures wanted.items[i] in list.items {
        assert IsWanted(wanted, wanted.items[i]);
      }
    }
    if list.Arr? && !wanted.Arr?
      && forall x :: IsWanted(wanted, x) ==> exists j :: 0 <= j < |list.items| && list.items[j] == x
    {
      assert IsWanted(wanted, wanted);
    }
  }

  // ---------------------------------------------------------- what is valid

  /** How many of `$or` and `$and` a filter has. */
  function Keys(f: Filter): nat {
    (if f.orGroups.Some? then 1 else 0) + (if f.andGroups.Some? then 1 else 0)
  }

  /** The filter nests at most `depth` levels, where having both `$or` and `$and` takes
      two, and each of them is a list of at least two such filters. */
  predicate Sound(f: Filter, depth: int)
    decreases f
  {
    Keys(f) <= depth && SoundGroups(f.orGroups, depth - Keys(f)) && SoundGroups(f.andGroups, depth - Keys(f))
  }

  predicate SoundGroups(g: Option<Groups>, depth: int)
    decreases g
  {
    g.Some? ==>
      && g.value.GroupList? && |g.value.filters| > 1
      && forall i :: 0 <= i < |g.value.filters| ==> Sound(g.value.filters[i], depth)
  }

  lemma {:induction false} SoundDeeper(f: Filter, depth: int)
    requires Sound(f, depth)
    ensures Sound(f, depth + 1)
    decreases f
  {
    GroupsDeeper(f.orGroups, depth - Keys(f));
    GroupsDeeper(f.andGroups, depth - Keys(f));
  }

  lemma {:induction false} GroupsDeeper(g: Option<Groups>, depth: int)
    requires SoundGroups(g, depth)
    ensures SoundGroups(g, depth + 1)
    decreases g
  {
    if g.Some? {
      forall i | 0 <= i < |g.value.filters| ensures Sound(g.value.filters[i], depth + 1) {
        SoundDeeper(g.value.filters[i], depth);
      }
    }
  }

  ghost predicate GroupsOk(g: Option<Groups>, level: nat) {
    g.Some? ==> Proper(g.value) && AllValid(g.value.filters, level)
  }

  lemma ValidUnfolded(f: Filter, level: nat)
    ensures Valid(f, level) <==>
            && level <= 2 && GroupsOk(f.orGroups, level + 1) && GroupsOk(f.andGroups, level + 1)
            && (f.orGroups.Some? && !IsEmpty(WithoutOr(f)) ==> Valid(WithoutOr(f), level + 1))
            && (f.andGroups.Some? && !IsEmpty(WithoutAnd(f)) ==> Valid(WithoutAnd(f), level + 1))
  {
  }

  /** The validator accepts exactly the filters that are sound down to two levels,
      counted from the level it is called at. */
  lemma {:induction false} ValidExactly(f: Filter, level: nat)
    ensures Valid(f, level) <==> level <= 2 && Sound(f, 2 - level)
    decreases 3 - level, 1
  {
    ValidUnfolded(f, level);
    if level <= 2 {
      GroupsExactly(f.orGroups, level + 1);
      GroupsExactly(f.andGroups, level + 1);
      if Keys(f) > 0 {
        ValidExactly(WithoutOr(f), level + 1);
        ValidExactly(WithoutAnd(f), level + 1);
      }
      hide Valid, GroupsOk, SoundGroups;
      var d: int := 0 - level;
      NoGroups(d);
      if SoundGroups(f.orGroups, d) { GroupsDeeper(f.orGroups, d); }
      if SoundGroups(f.andGroups, d) { GroupsDeeper(f.andGroups, d); }
      if level == 2 {
        TooDeep(f.orGroups, -1);
        TooDeep(f.andGroups, -1);
      }
    }
  }

  lemma NoGroups(depth: int)
    ensures SoundGroups(None, depth) && SoundGroups(None, depth + 1)
  {
  }

  lemma TooDeep(g: Option<Groups>, depth: int)
    requires depth < 0
    ensures SoundGroups(g, depth) <==> g.None?
  {
    if g.Some? && g.value.GroupList? && |g.value.filters| > 1 {
      assert !Sound(g.value.filters[0], depth);
    }
  }

  lemma {:induction false} GroupsExactly(g: Option<Groups>, level: nat)
    requires level <= 3
    ensures GroupsOk(g, level) <==> SoundGroups(g, 2 - level)
    decreases 3 - level, 2
  {
    if g.Some? && g.value.GroupList? {
      forall i | 0 <= i < |g.value.filters|
        ensures Valid(g.value.filters[i], level) <==> Sound(g.value.filters[i], 2 - level)
      {
        if level <= 2 { ValidExactly(g.value.filters[i], level); }
      }
    }
  }

  lemma {:induction false} LeavesMean(ls: seq<Leaf>, metadata: map<string, Json>)
    requires forall i :: 0 <= i < |ls| ==> OrdinaryLeaf(ls[i])
    ensures CheckLeaves(ls, metadata) == Matches(forall i :: 0 <= i < |ls| ==> LeafHolds(ls[i], metadata))
  {
    if ls != [] {
      LeavesMean(ls[1..], metadata);
      LeafMeansExactly(ls[0]);
      assert CheckLeaf(ls[0], metadata) == Matches(LeafHolds(ls[0], metadata));
      assert ls == [ls[0]] + ls[1..];
    }
  }

  /** Main result: a filter the validator accepts never makes the matcher raise, and
      the matcher's verdict is the plain meaning. */
  lemma {:induction false} CheckMeans(f: Filter, metadata: map<string, Json>, level: nat)
    requires Valid(f, level) && Ordinary(f)
    ensures Check(f, metadata, level) == Matches(Means(f, metadata))
    decreases if level <= 3 then 4 - level else 0, 0
  {
    if IsEmpty(f) {
    } else if f.orGroups.Some? {
      AnyMeans(f.orGroups.value.filters, metadata, level + 1);
      var rest := WithoutOr(f);
      if !IsEmpty(rest) { CheckMeans(rest, metadata, level + 1); }
    } else if f.andGroups.Some? {
      AllMean(f.andGroups.value.filters, metadata, level + 1);
      var rest := WithoutAnd(f);
      if !IsEmpty(rest) { CheckMeans(rest, metadata, level + 1); }
    } else {
      LeavesMean(f.leaves, metadata);
    }
  }

  lemma {:induction false} AnyMeans(fs: seq<Filter>, metadata: map<string, Json>, level: nat)
    requires AllValid(fs, level) && forall i :: 0 <= i < |fs| ==> Ordinary(fs[i])
    ensures CheckAny(fs, metadata, level) == Matches(exists i :: 0 <= i < |fs| && Means(fs[i], metadata))
    decreases if level <= 3 then 4 - level else 0, 1, |fs|
  {
    if fs != [] {
      CheckMeans(fs[0], metadata, level);
      AnyMeans(fs[1..], metadata, level);
      assert fs == [fs[0]] + fs[1..];
      assert forall i :: 0 <= i < |fs| - 1 ==> fs[1..][i] == fs[i + 1];
    }
  }

  lemma {:induction false} AllMean(fs: seq<Filter>, metadata: map<string, Json>, level: nat)
    requires AllValid(fs, level) && forall i :: 0 <= i < |fs| ==> Ordinary(fs[i])
    ensures CheckAll(fs, metadata, level) == Matches(forall i :: 0 <= i < |fs| ==> Means(fs[i], metadata))
    decreases if level <= 3 then 4 - level else 0, 1, |fs|
  {
    if fs != [] {
      CheckMeans(fs[0], metadata, level);
      AllMean(fs[1..], metadata, level);
      assert fs == [fs[0]] + fs[1..];
      assert forall i :: 0 <= i < |fs| - 1 ==> fs[1..][i] == fs[i + 1];
    }
  }
}
