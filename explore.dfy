/**
 * The tag tally of `explore.py`. `audit` collects, for the elements of one
 * kind, the values of their tags under each tag key, in document order;
 * `get_unique_values_and_count` counts how often each distinct value
 * occurs; `audit_tags` does both for every key; and the keys or values are
 * shown ranked by count, most frequent first, optionally only the first
 * few. Dictionary iteration order is not fixed by the language, so where a
 * ranking depends on it the order is a parameter.
 */
module Explore {
  import opened Wrappers
  import opened Osm

  // ---------------------------------------------------------------------
  // audit: grouping tag values by key
  // ---------------------------------------------------------------------

  /** `is_tag_type`: the element has this name. */
  predicate IsTagType(e: ElementValue, tagType: string)
  {
    e.kind == tagType
  }

  /** `tag_types[k]` on a `defaultdict(list)`: the empty list for a key never seen. */
  function Lookup(groups: map<string, seq<string>>, k: string): seq<string>
  {
    if k in groups then groups[k] else []
  }

  /** `tag_types[t.key].append(t.value)`. */
  function Append(groups: map<string, seq<string>>, t: Tag): map<string, seq<string>>
  {
    groups[t.key := Lookup(groups, t.key) + [t.value]]
  }

  /** The groups after appending each of these tags, in order. */
  function AppendAll(groups: map<string, seq<string>>, tags: seq<Tag>): map<string, seq<string>>
  {
    if tags == [] then groups else Append(AppendAll(groups, tags[..|tags| - 1]), tags[|tags| - 1])
  }

  /** `tag_types` after these elements: only elements named `tagType` add their tags. */
  function Grouped(es: seq<ElementValue>, tagType: string): map<string, seq<string>>
  {
    if es == [] then map[]
    else
      var e := es[|es| - 1];
      var g := Grouped(es[..|es| - 1], tagType);
      if IsTagType(e, tagType) then AppendAll(g, e.tags) else g
  }

  /** The values of the tags with this key, in order. */
  function ValuesUnder(tags: seq<Tag>, k: string): seq<string>
  {
    if tags == [] then []
    else
      var t := tags[|tags| - 1];
      ValuesUnder(tags[..|tags| - 1], k) + (if t.key == k then [t.value] else [])
  }

  /** The values of the tags with this key of the elements named `tagType`, in document order. */
  function ValuesFor(es: seq<ElementValue>, tagType: string, k: string): seq<string>
  {
    if es == [] then []
    else
      var e := es[|es| - 1];
      ValuesFor(es[..|es| - 1], tagType, k) + (if IsTagType(e, tagType) then ValuesUnder(e.tags, k) else [])
  }

  /** One append adds one value under one key. */
  lemma LookupAppend(groups: map<string, seq<string>>, t: Tag, k: string)
    ensures Lookup(Append(groups, t), k) == Lookup(groups, k) + (if t.key == k then [t.value] else [])
    ensures k in Append(groups, t) <==> k in groups || t.key == k
  {
  }

  /** Appending tags adds, under each key, exactly the values of that key's tags, in order. */
  lemma {:induction false} AppendAllSpec(groups: map<string, seq<string>>, tags: seq<Tag>)
    ensures forall k :: Lookup(AppendAll(groups, tags), k) == Lookup(groups, k) + ValuesUnder(tags, k)
    ensures forall k :: k in AppendAll(groups, tags) <==> k in groups || ValuesUnder(tags, k) != []
    decreases |tags|
  {
    if tags != [] {
      var init, t := tags[..|tags| - 1], tags[|tags| - 1];
      AppendAllSpec(groups, init);
      var m := AppendAll(groups, init);
      forall k
        ensures Lookup(AppendAll(groups, tags), k) == Lookup(groups, k) + ValuesUnder(tags, k)
        ensures k in AppendAll(groups, tags) <==> k in groups || ValuesUnder(tags, k) != []
      {
        var extra := if t.key == k then [t.value] else [];
        LookupAppend(m, t, k);
        assert ValuesUnder(tags, k) == ValuesUnder(init, k) + extra;
        assert Lookup(groups, k) + ValuesUnder(init, k) + extra == Lookup(groups, k) + (ValuesUnder(init, k) + extra);
      }
    }
  }

  /**
   * After the grouping loop of `audit`, each key holds the values of that
   * key's tags on the elements named `tagType`, in document order; a key is
   * present exactly when it has such a value.
   */
  lemma {:induction false} GroupedSpec(es: seq<ElementValue>, tagType: string)
    ensures forall k :: Lookup(Grouped(es, tagType), k) == ValuesFor(es, tagType, k)
    ensures forall k :: k in Grouped(es, tagType) <==> ValuesFor(es, tagType, k) != []
    decreases |es|
  {
    if es != [] {
      var init, e := es[..|es| - 1], es[|es| - 1];
      GroupedSpec(init, tagType);
      if IsTagType(e, tagType) {
        AppendAllSpec(Grouped(init, tagType), e.tags);
      }
    }
  }

  /** Elements of another kind leave the groups as they are, wherever they stand. */
  lemma OtherKindIgnored(a: seq<ElementValue>, e: ElementValue, b: seq<ElementValue>, tagType: string)
    requires !IsTagType(e, tagType)
    ensures forall k :: ValuesFor(a + [e] + b, tagType, k) == ValuesFor(a + b, tagType, k)
  {
    forall k ensures ValuesFor(a + [e] + b, tagType, k) == ValuesFor(a + b, tagType, k) {
      ValuesForAppend(a + [e], b, tagType, k);
      ValuesForAppend(a, b, tagType, k);
      assert (a + [e])[..|a|] == a;
    }
  }

  lemma {:induction false} ValuesForAppend(a: seq<ElementValue>, b: seq<ElementValue>, tagType: string, k: string)
    ensures ValuesFor(a + b, tagType, k) == ValuesFor(a, tagType, k) + ValuesFor(b, tagType, k)
    decreases |b|
  {
    if b == [] {
      assert a + b == a;
    } else {
      var b0, e := b[..|b| - 1], b[|b| - 1];
      assert (a + b)[..|a + b| - 1] == a + b0;
      ValuesForAppend(a, b0, tagType, k);
      var extra := if IsTagType(e, tagType) then ValuesUnder(e.tags, k) else [];
      assert ValuesFor(a, tagType, k) + ValuesFor(b0, tagType, k) + extra
          == ValuesFor(a, tagType, k) + (ValuesFor(b0, tagType, k) + extra);
    }
  }

  /** The grouping loop of `audit`: the tags of every element named `tagType`, collected by key. */
  method Audit(es: seq<ElementValue>, tagType: string) returns (tagTypes: map<string, seq<string>>)
    ensures tagTypes == Grouped(es, tagType)
    ensures forall k :: Lookup(tagTypes, k) == ValuesFor(es, tagType, k)
    ensures forall k :: k in tagTypes <==> ValuesFor(es, tagType, k) != []
  {
    tagTypes := map[];
    var n := 0;
    while n < |es|
      invariant 0 <= n <= |es|
      invariant tagTypes == Grouped(es[..n], tagType)
    {
      var e := es[n];
      assert es[..n + 1][..n] == es[..n];
      if IsTagType(e, tagType) {
        ghost var before := tagTypes;
        var k := 0;
        while k < |e.tags|
          invariant 0 <= k <= |e.tags|
          invariant tagTypes == AppendAll(before, e.tags[..k])
        {
          var tag := e.tags[k];
          assert e.tags[..k + 1][..k] == e.tags[..k];
          tagTypes := tagTypes[tag.key := Lookup(tagTypes, tag.key) + [tag.value]];
          k := k + 1;
        }
        assert e.tags[..k] == e.tags;
      }
      n := n + 1;
    }
    assert es[..n] == es;
    GroupedSpec(es, tagType);
  }

  // ---------------------------------------------------------------------
  // get_unique_values_and_count
  // ---------------------------------------------------------------------

  /** Each distinct value with the number of times it occurs. */
  function Multiplicities(values: seq<string>): map<string, nat>
  {
    var ms := multiset(values);
    map v | v in ms :: ms[v]
  }

  /** `unique_values[value] += 1` on a `defaultdict(int)`. */
  function Bump(counts: map<string, nat>, v: string): map<string, nat>
  {
    counts[v := (if v in counts then counts[v] else 0) + 1]
  }

  /** The counts `get_unique_values_and_count` builds, value after value. */
  function Tally(values: seq<string>): map<string, nat>
  {
    if values == [] then map[] else Bump(Tally(values[..|values| - 1]), values[|values| - 1])
  }

  /** Counting one value after the others bumps its count by one and no other count. */
  lemma MultiplicitiesStep(values: seq<string>, v: string)
    ensures Multiplicities(values + [v]) == Bump(Multiplicities(values), v)
  {
    assert multiset(values + [v]) == multiset(values) + multiset{v};
  }

  /** The counts are exactly how often each distinct value occurs. */
  lemma {:induction false} TallyIsMultiplicities(values: seq<string>)
    ensures Tally(values) == Multiplicities(values)
    decreases |values|
  {
    if values != [] {
      var init := values[..|values| - 1];
      TallyIsMultiplicities(init);
      MultiplicitiesStep(init, values[|values| - 1]);
      assert init + [values[|values| - 1]] == values;
    }
  }

  /** `get_unique_values_and_count`: how often each distinct value occurs. */
  method GetUniqueValuesAndCount(values: seq<string>) returns (unique: map<string, nat>)
    ensures unique == Tally(values)
  {
    unique := map[];
    for i := 0 to |values|
      invariant unique == Tally(values[..i])
    {
      var value := values[i];
      assert values[..i + 1][..i] == values[..i];
      unique := unique[value := (if value in unique then unique[value] else 0) + 1];
    }
    assert values[..|values|] == values;
  }

  /** The keys are the distinct values, each counted as often as it occurs. */
  lemma TallyKeys(values: seq<string>)
    ensures forall v :: v in Tally(values) <==> v in values
    ensures forall v :: v in Tally(values) ==> Tally(values)[v] == multiset(values)[v] >= 1
  {
    TallyIsMultiplicities(values);
  }

  /** The sum of the counts of a map. */
  ghost function SumCounts(m: map<string, nat>): nat
    decreases |m|
  {
    if m == map[] then 0
    else
      var k :| k in m;
      m[k] + SumCounts(m - {k})
  }

  /** A multiset has its occurrences of `k` plus those of everything else. */
  lemma {:induction false} CardWithout(ms: multiset<string>, k: string)
    ensures |ms| == |ms[k := 0]| + ms[k]
    decreases ms[k]
  {
    if ms[k] != 0 {
      var rest := ms - multiset{k};
      assert ms == rest + multiset{k};
      assert rest[k := 0] == ms[k := 0];
      CardWithout(rest, k);
    } else {
      assert ms[k := 0] == ms;
    }
  }

  /** The counts of a multiset's elements add up to its size. */
  lemma {:induction false} SumOfCounts(ms: multiset<string>)
    ensures SumCounts(map v | v in ms :: ms[v]) == |ms|
    decreases |ms|
  {
    var m := map v | v in ms :: ms[v];
    if ms == multiset{} {
      assert m == map[];
    } else {
      var x :| x in ms;
      assert x in m;
      var k :| k in m && SumCounts(m) == m[k] + SumCounts(m - {k});
      var rest := ms[k := 0];
      assert m - {k} == map v | v in rest :: rest[v];
      CardWithout(ms, k);
      SumOfCounts(rest);
    }
  }

  /** A map whose counts are all at least one has no more keys than the sum of its counts. */
  lemma {:induction false} KeysAtMostSum(m: map<string, nat>)
    requires forall k :: k in m ==> m[k] >= 1
    ensures |m| <= SumCounts(m)
    decreases |m|
  {
    if m != map[] {
      var k :| k in m && SumCounts(m) == m[k] + SumCounts(m - {k});
      KeysAtMostSum(m - {k});
    }
  }

  /** The counts add up to the number of values counted. */
  lemma CountsSum(values: seq<string>)
    ensures SumCounts(Tally(values)) == |values|
  {
    TallyIsMultiplicities(values);
    SumOfCounts(multiset(values));
  }

  /** There are never more distinct values than values. */
  lemma UniqueAtMostCount(values: seq<string>)
    ensures |Tally(values)| <= |values|
  {
    CountsSum(values);
    TallyKeys(values);
    KeysAtMostSum(Tally(values));
  }

  // ---------------------------------------------------------------------
  // audit_tags
  // ---------------------------------------------------------------------

  /** `len(tag_types[tag])` for every key: the total count per key. */
  function Lengths(tagTypes: map<string, seq<string>>): map<string, nat>
  {
    map k | k in tagTypes :: |tagTypes[k]|
  }

  /** The distinct values of every key with their counts. */
  function UniqueValues(tagTypes: map<string, seq<string>>): map<string, map<string, nat>>
  {
    map k | k in tagTypes :: Tally(tagTypes[k])
  }

  /** The counting loop of `audit_tags`: `tag_count` and `tag_values_unique`. */
  method AuditTags(tagTypes: map<string, seq<string>>)
    returns (tagCount: map<string, nat>, tagValuesUnique: map<string, map<string, nat>>)
    ensures tagCount == Lengths(tagTypes)
    ensures tagValuesUnique == UniqueValues(tagTypes)
  {
    ghost var counts := Lengths(tagTypes);
    ghost var uniques := UniqueValues(tagTypes);
    assert counts.Keys == uniques.Keys == tagTypes.Keys;
    tagCount := map[];
    tagValuesUnique := map[];
    var rest := tagTypes.Keys;
    while rest != {}
      invariant rest <= counts.Keys && rest <= uniques.Keys
      invariant tagCount == counts - rest
      invariant tagValuesUnique == uniques - rest
      decreases |rest|
    {
      var tag :| tag in rest;
      var values := tagTypes[tag];
      MinusStep(counts, rest, tag);
      MinusStep(uniques, rest, tag);
      tagCount := tagCount[tag := |values|];
      var unique := GetUniqueValuesAndCount(values);
      tagValuesUnique := tagValuesUnique[tag := unique];
      rest := rest - {tag};
    }
    MinusNone(counts);
    MinusNone(uniques);
  }

  /** Filling in one more key of a map. */
  lemma MinusStep<V>(m: map<string, V>, rest: set<string>, tag: string)
    requires tag in rest && rest <= m.Keys
    ensures (m - rest)[tag := m[tag]] == m - (rest - {tag})
  {
  }

  lemma MinusNone<V>(m: map<string, V>)
    ensures m - {} == m
  {
  }

  /** Every key has at most as many distinct values as values, and the counts add up to the total. */
  lemma AuditTagsCounts(tagTypes: map<string, seq<string>>, k: string)
    requires k in tagTypes
    ensures k in Lengths(tagTypes) && k in UniqueValues(tagTypes)
    ensures |UniqueValues(tagTypes)[k]| <= Lengths(tagTypes)[k]
    ensures SumCounts(UniqueValues(tagTypes)[k]) == Lengths(tagTypes)[k]
  {
    UniqueAtMostCount(tagTypes[k]);
    CountsSum(tagTypes[k]);
  }

  // ---------------------------------------------------------------------
  // Ranking by count: `sorted(d, key=..., reverse=True)[:limit]`
  // ---------------------------------------------------------------------

  predicate AllCounted(s: seq<string>, count: map<string, nat>)
  {
    forall i :: 0 <= i < |s| ==> s[i] in count
  }

  /** No entry has a higher count than an entry before it. */
  predicate Ranked(s: seq<string>, count: map<string, nat>)
    requires AllCounted(s, count)
  {
    forall i, j :: 0 <= i < j < |s| ==> count[s[i]] >= count[s[j]]
  }

  /** `x` put before the first entry whose count is not higher than its own. */
  function Insert(x: string, s: seq<string>, count: map<string, nat>): (r: seq<string>)
    requires x in count && AllCounted(s, count)
    ensures multiset(r) == multiset([x] + s)
    ensures AllCounted(r, count)
  {
    if s == [] || count[x] >= count[s[0]] then [x] + s
    else
      assert s == [s[0]] + s[1..];
      [s[0]] + Insert(x, s[1..], count)
  }

  /**
   * The keys in descending order of count, ties kept in their given order
   * (Python's sort is stable, also with `reverse=True`).
   */
  function SortByCount(s: seq<string>, count: map<string, nat>): (r: seq<string>)
    requires AllCounted(s, count)
    ensures multiset(r) == multiset(s)
    ensures AllCounted(r, count)
  {
    if s == [] then []
    else
      assert s == [s[0]] + s[1..];
      Insert(s[0], SortByCount(s[1..], count), count)
  }

  lemma RankedTail(s: seq<string>, count: map<string, nat>)
    requires s != [] && AllCounted(s, count) && Ranked(s, count)
    ensures AllCounted(s[1..], count) && Ranked(s[1..], count)
  {
    var t := s[1..];
    forall i, j | 0 <= i < j < |t| ensures count[t[i]] >= count[t[j]] {
      assert t[i] == s[i + 1] && t[j] == s[j + 1];
    }
  }

  lemma RankedCons(h: string, t: seq<string>, count: map<string, nat>)
    requires h in count && AllCounted(t, count) && Ranked(t, count)
    requires forall i :: 0 <= i < |t| ==> count[h] >= count[t[i]]
    ensures AllCounted([h] + t, count) && Ranked([h] + t, count)
  {
    var out := [h] + t;
    forall i, j | 0 <= i < j < |out| ensures count[out[i]] >= count[out[j]] {
      assert out[j] == t[j - 1];
      if i > 0 {
        assert out[i] == t[i - 1];
      }
    }
  }

  /** Every entry of a ranked list counts no more than its first entry. */
  lemma RankedHead(s: seq<string>, count: map<string, nat>, y: string)
    requires s != [] && AllCounted(s, count) && Ranked(s, count) && y in s
    ensures y in count && count[s[0]] >= count[y]
  {
    var m :| 0 <= m < |s| && s[m] == y;
    if m > 0 {
      assert count[s[0]] >= count[s[m]];
    }
  }

  lemma InsertElems(x: string, s: seq<string>, count: map<string, nat>)
    requires x in count && AllCounted(s, count)
    ensures forall i :: 0 <= i < |Insert(x, s, count)| ==> Insert(x, s, count)[i] == x || Insert(x, s, count)[i] in s
  {
    var r := Insert(x, s, count);
    forall i | 0 <= i < |r| ensures r[i] == x || r[i] in s {
      assert r[i] in multiset(r);
      assert r[i] in multiset([x] + s);
    }
  }

  /** Inserting into a ranked list keeps it ranked. */
  lemma {:induction false} InsertRanked(x: string, s: seq<string>, count: map<string, nat>)
    requires x in count && AllCounted(s, count) && Ranked(s, count)
    ensures Ranked(Insert(x, s, count), count)
    decreases |s|
  {
    if s != [] && count[x] < count[s[0]] {
      var t := s[1..];
      RankedTail(s, count);
      InsertRanked(x, t, count);
      var r := Insert(x, t, count);
      InsertElems(x, t, count);
      forall i | 0 <= i < |r| ensures count[s[0]] >= count[r[i]] {
        if r[i] != x {
          assert r[i] in s;
          RankedHead(s, count, r[i]);
        }
      }
      RankedCons(s[0], r, count);
    }
  }

  /** The ranking is in non-increasing order of count. */
  lemma {:induction false} SortByCountRanked(s: seq<string>, count: map<string, nat>)
    requires AllCounted(s, count)
    ensures Ranked(SortByCount(s, count), count)
    decreases |s|
  {
    if s != [] {
      SortByCountRanked(s[1..], count);
      InsertRanked(s[0], SortByCount(s[1..], count), count);
    }
  }

  /** The slice `[:limit]`; no limit keeps everything. */
  function Take(s: seq<string>, limit: Option<nat>): seq<string>
  {
    match limit
    case None => s
    case Some(n) => if n < |s| then s[..n] else s
  }

  /** `sorted(count, key=count.get, reverse=True)[:limit]`, for the given iteration order of `count`. */
  function TopByCount(count: map<string, nat>, order: seq<string>, limit: Option<nat>): seq<string>
    requires AllCounted(order, count)
  {
    Take(SortByCount(order, count), limit)
  }

  /** A prefix of a ranked list is ranked, and nothing after it counts more than anything in it. */
  lemma RankedPrefix(s: seq<string>, count: map<string, nat>, n: nat)
    requires n <= |s| && AllCounted(s, count) && Ranked(s, count)
    ensures AllCounted(s[..n], count) && Ranked(s[..n], count)
    ensures forall i, z :: 0 <= i < n && z in s && z !in s[..n] ==> count[s[i]] >= count[z]
  {
    var r := s[..n];
    assert forall i :: 0 <= i < n ==> r[i] == s[i];
    forall i, z | 0 <= i < n && z in s && z !in r ensures count[s[i]] >= count[z] {
      var j :| 0 <= j < |s| && s[j] == z;
      assert forall m :: 0 <= m < n ==> r[m] != z;
      assert n <= j;
    }
  }

  lemma TakeSpec(s: seq<string>, limit: Option<nat>)
    ensures Take(s, limit) == s[..|Take(s, limit)|]
    ensures limit.None? ==> Take(s, limit) == s
    ensures limit.Some? ==> |Take(s, limit)| == if limit.value < |s| then limit.value else |s|
  {
  }

  /** Two lists holding the same entries equally often have the same length and members. */
  lemma SameEntries(a: seq<string>, b: seq<string>)
    requires multiset(a) == multiset(b)
    ensures |a| == |b|
    ensures forall z :: z in a <==> z in b
  {
    assert |multiset(a)| == |multiset(b)|;
    forall z ensures z in a <==> z in b {
      assert z in a <==> z in multiset(a);
      assert z in b <==> z in multiset(b);
    }
  }

  /**
   * At most `limit` entries, all of them when there is no limit, in
   * non-increasing order of count, and no entry left out counts more than
   * one shown.
   */
  lemma TopByCountSpec(count: map<string, nat>, order: seq<string>, limit: Option<nat>)
    requires AllCounted(order, count)
    ensures var r := TopByCount(count, order, limit);
            AllCounted(r, count) && Ranked(r, count)
            && (limit.None? ==> multiset(r) == multiset(order) && forall z :: z in r <==> z in order)
            && (limit.Some? ==> |r| == if limit.value < |order| then limit.value else |order|)
            && (forall i :: 0 <= i < |r| ==> r[i] in order)
            && (forall i, z :: 0 <= i < |r| && z in order && z !in r ==> count[r[i]] >= count[z])
  {
    var sorted := SortByCount(order, count);
    SortByCountRanked(order, count);
    SameEntries(sorted, order);
    TakeSpec(sorted, limit);
    var r := TopByCount(count, order, limit);
    RankedPrefix(sorted, count, |r|);
    forall i | 0 <= i < |r| ensures r[i] in order {
      assert r[i] == sorted[i];
    }
  }

  /** `print_tag_values_and_counts`: the values of a key shown, most frequent first. */
  function ShownValues(tagValuesUnique: map<string, map<string, nat>>, tagKey: string,
                       order: seq<string>, limit: Option<nat>): seq<string>
    requires tagKey in tagValuesUnique && AllCounted(order, tagValuesUnique[tagKey])
  {
    TopByCount(tagValuesUnique[tagKey], order, limit)
  }

  /** `audit_tags` shows the ten keys with the most values, and twenty values of each. */
  const TopTags: nat := 10
  const TopValues: nat := 20

  /** The keys `audit_tags` reports, for the given iteration order of `tag_count`. */
  function ReportedTags(tagCount: map<string, nat>, order: seq<string>): seq<string>
    requires AllCounted(order, tagCount)
  {
    TopByCount(tagCount, order, Some(TopTags))
  }

  /** At most ten keys, the ones with the most values, in non-increasing order of their count. */
  lemma ReportedTagsSpec(tagTypes: map<string, seq<string>>, order: seq<string>)
    requires AllCounted(order, Lengths(tagTypes))
    ensures var r := ReportedTags(Lengths(tagTypes), order);
            |r| <= TopTags && AllCounted(r, Lengths(tagTypes)) && Ranked(r, Lengths(tagTypes))
            && (forall i, z :: 0 <= i < |r| && z in order && z !in r ==> |tagTypes[r[i]]| >= |tagTypes[z]|)
  {
    TopByCountSpec(Lengths(tagTypes), order, Some(TopTags));
    var r := ReportedTags(Lengths(tagTypes), order);
    forall i, z | 0 <= i < |r| && z in order && z !in r ensures |tagTypes[r[i]]| >= |tagTypes[z]| {
      assert Lengths(tagTypes)[r[i]] >= Lengths(tagTypes)[z];
    }
  }

  /** What `audit_tags` prints for one reported key: its name, count, number of distinct values and the values shown. */
  datatype KeyReport = KeyReport(key: string, count: nat, unique: nat, values: seq<string>)

  /** The iteration order of every key's value counts names only values of that key. */
  predicate ValueOrders(tagTypes: map<string, seq<string>>, valueOrders: map<string, seq<string>>)
  {
    forall k :: k in tagTypes ==> k in valueOrders && AllCounted(valueOrders[k], UniqueValues(tagTypes)[k])
  }

  /** The lines `audit_tags` prints for one key. */
  function Entry(tagTypes: map<string, seq<string>>, valueOrders: map<string, seq<string>>, k: string): KeyReport
    requires k in tagTypes && ValueOrders(tagTypes, valueOrders)
  {
    KeyReport(k, |tagTypes[k]|, |UniqueValues(tagTypes)[k]|,
              ShownValues(UniqueValues(tagTypes), k, valueOrders[k], Some(TopValues)))
  }

  /**
   * `e` reports key `k`: its number of values and of distinct values, and at
   * most twenty of its values, most frequent first, with no value left out
   * counted more often than one shown.
   */
  predicate ShowsKey(tagTypes: map<string, seq<string>>, valueOrders: map<string, seq<string>>, k: string, e: KeyReport)
    requires k in tagTypes && ValueOrders(tagTypes, valueOrders)
  {
    var vc := UniqueValues(tagTypes)[k];
    e.key == k && e.count == |tagTypes[k]| && e.unique == |vc| <= e.count
    && |e.values| <= TopValues && AllCounted(e.values, vc) && Ranked(e.values, vc)
    && (forall j :: 0 <= j < |e.values| ==> e.values[j] in valueOrders[k])
    && (forall j, z :: 0 <= j < |e.values| && z in valueOrders[k] && z !in e.values ==> vc[e.values[j]] >= vc[z])
  }

  /** One key's lines report it as `ShowsKey` says. */
  lemma EntrySpec(tagTypes: map<string, seq<string>>, valueOrders: map<string, seq<string>>, k: string)
    requires k in tagTypes && ValueOrders(tagTypes, valueOrders)
    ensures ShowsKey(tagTypes, valueOrders, k, Entry(tagTypes, valueOrders, k))
  {
    AuditTagsCounts(tagTypes, k);
    TopByCountSpec(UniqueValues(tagTypes)[k], valueOrders[k], Some(TopValues));
  }

  /** The printing loop of `audit_tags` over the given keys. */
  function ReportOf(tagTypes: map<string, seq<string>>, keys: seq<string>, valueOrders: map<string, seq<string>>)
    : seq<KeyReport>
    requires AllCounted(keys, Lengths(tagTypes)) && ValueOrders(tagTypes, valueOrders)
  {
    if keys == [] then []
    else
      assert keys[0] in Lengths(tagTypes);
      [Entry(tagTypes, valueOrders, keys[0])] + ReportOf(tagTypes, keys[1..], valueOrders)
  }

  /** `audit_tags`' report, for the given iteration orders of `tag_count` and of each key's value counts. */
  function Report(tagTypes: map<string, seq<string>>, order: seq<string>, valueOrders: map<string, seq<string>>)
    : seq<KeyReport>
    requires AllCounted(order, Lengths(tagTypes)) && ValueOrders(tagTypes, valueOrders)
  {
    TopByCountSpec(Lengths(tagTypes), order, Some(TopTags));
    ReportOf(tagTypes, ReportedTags(Lengths(tagTypes), order), valueOrders)
  }

  /** Entry `i` of the printing loop belongs to the `i`-th key. */
  lemma {:induction false} ReportOfAt(tagTypes: map<string, seq<string>>, keys: seq<string>,
                                      valueOrders: map<string, seq<string>>, i: int)
    requires AllCounted(keys, Lengths(tagTypes)) && ValueOrders(tagTypes, valueOrders)
    requires 0 <= i < |keys|
    ensures |ReportOf(tagTypes, keys, valueOrders)| == |keys|
    ensures keys[i] in tagTypes
    ensures ReportOf(tagTypes, keys, valueOrders)[i] == Entry(tagTypes, valueOrders, keys[i])
    decreases |keys|
  {
    assert keys[0] in Lengths(tagTypes);
    if i > 0 {
      ReportOfAt(tagTypes, keys[1..], valueOrders, i - 1);
      assert keys[1..][i - 1] == keys[i];
    } else if |keys| > 1 {
      ReportOfAt(tagTypes, keys[1..], valueOrders, 0);
    }
  }

  /** The report follows the reported keys in order, and each entry shows its key as `ShowsKey` says. */
  lemma ReportSpec(tagTypes: map<string, seq<string>>, order: seq<string>, valueOrders: map<string, seq<string>>)
    requires AllCounted(order, Lengths(tagTypes)) && ValueOrders(tagTypes, valueOrders)
    ensures var r := Report(tagTypes, order, valueOrders);
            var keys := ReportedTags(Lengths(tagTypes), order);
            |r| == |keys| <= TopTags
            && forall i :: 0 <= i < |r| ==> keys[i] in tagTypes && ShowsKey(tagTypes, valueOrders, keys[i], r[i])
  {
    var keys := ReportedTags(Lengths(tagTypes), order);
    TopByCountSpec(Lengths(tagTypes), order, Some(TopTags));
    var r := Report(tagTypes, order, valueOrders);
    if keys != [] {
      ReportOfAt(tagTypes, keys, valueOrders, 0);
    }
    forall i | 0 <= i < |r|
      ensures keys[i] in tagTypes && ShowsKey(tagTypes, valueOrders, keys[i], r[i])
    {
      ReportOfAt(tagTypes, keys, valueOrders, i);
      EntrySpec(tagTypes, valueOrders, keys[i]);
    }
  }

  // ---------------------------------------------------------------------
  // The report of `audit`: keys used more than five times
  // ---------------------------------------------------------------------

  /** `audit` reports a key only when it has more than this many values. */
  const ReportThreshold: nat := 5

  /** The entries counted more than `ReportThreshold` times, in order. */
  function Frequent(s: seq<string>, count: map<string, nat>): seq<string>
    requires AllCounted(s, count)
  {
    if s == [] then []
    else (if count[s[0]] > ReportThreshold then [s[0]] else []) + Frequent(s[1..], count)
  }

  lemma {:induction false} FrequentSpec(s: seq<string>, count: map<string, nat>)
    requires AllCounted(s, count)
    ensures AllCounted(Frequent(s, count), count)
    ensures forall x :: x in Frequent(s, count) <==> x in s && count[x] > ReportThreshold
    ensures Ranked(s, count) ==> Ranked(Frequent(s, count), count)
    decreases |s|
  {
    if s != [] {
      var t := s[1..];
      FrequentSpec(t, count);
      var f := Frequent(t, count);
      assert s == [s[0]] + t;
      if Ranked(s, count) {
        RankedTail(s, count);
        if count[s[0]] > ReportThreshold {
          forall i | 0 <= i < |f| ensures count[s[0]] >= count[f[i]] {
            assert f[i] in f;
            RankedHead(s, count, f[i]);
          }
          RankedCons(s[0], f, count);
        }
      }
    }
  }

  /** The keys `audit` writes to the console, for the given iteration order of `tag_types`. */
  function FrequentTags(tagTypes: map<string, seq<string>>, order: seq<string>): seq<string>
    requires AllCounted(order, Lengths(tagTypes))
  {
    Frequent(SortByCount(order, Lengths(tagTypes)), Lengths(tagTypes))
  }

  /** Exactly the keys with more than five values, in non-increasing order of their number of values. */
  lemma FrequentTagsSpec(tagTypes: map<string, seq<string>>, order: seq<string>)
    requires AllCounted(order, Lengths(tagTypes))
    ensures var r := FrequentTags(tagTypes, order);
            AllCounted(r, Lengths(tagTypes)) && Ranked(r, Lengths(tagTypes))
            && forall k :: k in r <==> k in order && |tagTypes[k]| > ReportThreshold
  {
    var count := Lengths(tagTypes);
    var sorted := SortByCount(order, count);
    SortByCountRanked(order, count);
    FrequentSpec(sorted, count);
    forall k ensures k in sorted <==> k in order {
      assert k in sorted <==> k in multiset(sorted);
    }
  }
}
