/**
 * The street-name auditor of `audit_street_names.py`: a name is well formed
 * when it ends with one of the German street-type words or begins with one
 * of a few prepositions, compared without regard to ASCII case; the names
 * that are not are collected once each, in the order they are first seen.
 *
 * The pattern is searched in a UTF-8 byte string under Python 2's
 * `re.IGNORECASE`, which folds ASCII letters only. On the decoded characters
 * that makes `ü` and `Ü` different letters, and the byte class `[sß]` the
 * characters `s`, `S` and `ß`.
 */
module StreetNames {
  import opened Text
  import opened Osm

  const StreetTag: string := "addr:street"

  /** `is_street_name`: the tag's key is exactly `addr:street`. */
  predicate IsStreetName(t: Tag)
  {
    t.key == StreetTag
  }

  // ---------------------------------------------------------------------
  // Case-insensitive comparison
  // ---------------------------------------------------------------------

  /** The string with its ASCII letters in lower case. */
  function Fold(s: string): (r: string)
    ensures |r| == |s|
    ensures forall k :: 0 <= k < |s| ==> r[k] == LowerAscii(s[k])
  {
    if s == [] then [] else [LowerAscii(s[0])] + Fold(s[1..])
  }

  /** s ends with the lower-case word w, ignoring ASCII case. */
  predicate EndsWithWord(s: string, w: string)
  {
    |w| <= |s| && Fold(s[|s| - |w|..]) == w
  }

  /** s begins with the lower-case word w, ignoring ASCII case. */
  predicate StartsWithWord(s: string, w: string)
  {
    |w| <= |s| && Fold(s[..|w|]) == w
  }

  /** `[sß]` under `re.IGNORECASE`. */
  predicate IsSharpS(c: char)
  {
    LowerAscii(c) == 's' || c == 'ß'
  }

  /** `[-\s]` */
  predicate IsDashOrSpace(c: char)
  {
    c == '-' || IsSpace(c)
  }

  // ---------------------------------------------------------------------
  // The pattern
  // ---------------------------------------------------------------------

  /** The words of the `...$` alternatives other than `stra[sß]+e$`. */
  const Suffixes: seq<string> := ["weg", "platz", "gasse", "ring", "allee", "anger", "bogen",
    "promenade", "feld", "hof", "brücke", "garten", "höhe", "insel"]

  /** s ends with "stra" followed by zero or more `[sß]`. */
  predicate EndsWithStraRun(s: string)
    decreases |s|
  {
    EndsWithWord(s, "stra") || (|s| > 0 && IsSharpS(s[|s| - 1]) && EndsWithStraRun(s[..|s| - 1]))
  }

  /** s ends with `stra[sß]+e`. */
  predicate EndsWithStrasse(s: string)
  {
    |s| >= 6 && LowerAscii(s[|s| - 1]) == 'e' && IsSharpS(s[|s| - 2]) && EndsWithStraRun(s[..|s| - 2])
  }

  predicate AllSharpS(s: string)
  {
    forall k :: 0 <= k < |s| ==> IsSharpS(s[k])
  }

  /** `stra[sß]*` matches s[i..] exactly. */
  predicate StraAt(s: string, i: int)
  {
    0 <= i && i + 4 <= |s| && Fold(s[i..i + 4]) == "stra" && AllSharpS(s[i + 4..])
  }

  /** `stra[sß]+e` matches s[i..] exactly. */
  predicate StrasseAt(s: string, i: int)
  {
    0 <= i && i + 6 <= |s| && Fold(s[i..i + 4]) == "stra" && AllSharpS(s[i + 4..|s| - 1])
    && LowerAscii(s[|s| - 1]) == 'e'
  }

  /** One of the `...$` alternatives matches: the name, or the name before a final newline, ends with it. */
  predicate MatchesEnding(name: string)
  {
    var b := Body(name);
    EndsWithStrasse(b) || exists w :: w in Suffixes && EndsWithWord(b, w)
  }

  /** One of the `^...` alternatives matches at the start of the name. */
  predicate MatchesStart(s: string)
  {
    || (|s| >= 3 && (LowerAscii(s[0]) == 'a' || LowerAscii(s[0]) == 'i')
        && (LowerAscii(s[1]) == 'n' || LowerAscii(s[1]) == 'm') && IsDashOrSpace(s[2]))
    || (|s| >= 3 && StartsWithWord(s, "zu") && IsDashOrSpace(s[2]))
    || (|s| >= 4 && StartsWithWord(s, "zu") && (LowerAscii(s[2]) == 'r' || LowerAscii(s[2]) == 'm')
        && IsDashOrSpace(s[3]))
    || (|s| >= 6 && StartsWithWord(s, "platz") && IsDashOrSpace(s[5]))
    || StartsWithWord(s, "unter")
  }

  /** The pattern of `audit_street_name` is found in the name. */
  predicate IsWellFormed(name: string)
  {
    MatchesEnding(name) || MatchesStart(name)
  }

  lemma {:induction false} StraAtRun(s: string, i: int)
    requires StraAt(s, i)
    ensures EndsWithStraRun(s)
    decreases |s|
  {
    if i + 4 == |s| {
      assert s[|s| - 4..] == s[i..i + 4];
    } else {
      var p := s[..|s| - 1];
      assert s[i + 4..][|s| - 1 - (i + 4)] == s[|s| - 1];
      assert p[i..i + 4] == s[i..i + 4];
      var pt, st := p[i + 4..], s[i + 4..];
      forall k | 0 <= k < |pt| ensures IsSharpS(pt[k]) {
        assert pt[k] == st[k];
      }
      StraAtRun(p, i);
    }
  }

  lemma SharpSnoc(a: string, c: char)
    requires AllSharpS(a) && IsSharpS(c)
    ensures AllSharpS(a + [c])
  {
    assert forall k :: 0 <= k < |a| ==> (a + [c])[k] == a[k];
  }

  lemma {:induction false} RunStraAt(s: string)
    requires EndsWithStraRun(s)
    ensures exists i :: StraAt(s, i)
    decreases |s|
  {
    if EndsWithWord(s, "stra") {
      assert s[|s| - 4..|s| - 4 + 4] == s[|s| - 4..];
      assert StraAt(s, |s| - 4);
    } else {
      var p := s[..|s| - 1];
      RunStraAt(p);
      var i :| StraAt(p, i);
      StraAtSnoc(s, i);
    }
  }

  /** A match of `stra[sß]*` extends over one more `[sß]`. */
  lemma StraAtSnoc(s: string, i: int)
    requires |s| > 0 && IsSharpS(s[|s| - 1]) && StraAt(s[..|s| - 1], i)
    ensures StraAt(s, i)
  {
    var p := s[..|s| - 1];
    assert s[i..i + 4] == p[i..i + 4];
    assert s[i + 4..] == p[i + 4..] + [s[|s| - 1]];
    SharpSnoc(p[i + 4..], s[|s| - 1]);
  }

  /** The recursive test for `stra[sß]*$` agrees with its definition as a match position. */
  lemma StraRunIff(s: string)
    ensures EndsWithStraRun(s) <==> exists i :: StraAt(s, i)
  {
    if EndsWithStraRun(s) {
      RunStraAt(s);
    }
    if exists i :: StraAt(s, i) {
      var i :| StraAt(s, i);
      StraAtRun(s, i);
    }
  }

  lemma StrasseOfRun(s: string)
    requires EndsWithStrasse(s)
    ensures exists i :: StrasseAt(s, i)
  {
    var q := s[..|s| - 1];
    var p := s[..|s| - 2];
    RunStraAt(p);
    var i :| StraAt(p, i);
    assert q[..|q| - 1] == p && q[|q| - 1] == s[|s| - 2];
    StraAtSnoc(q, i);
    assert q[i..i + 4] == s[i..i + 4] && q[i + 4..] == s[i + 4..|s| - 1];
    assert StrasseAt(s, i);
  }

  lemma RunOfStrasse(s: string, i: int)
    requires StrasseAt(s, i)
    ensures EndsWithStrasse(s)
  {
    var p := s[..|s| - 2];
    var m := s[i + 4..|s| - 1];
    assert p[i..i + 4] == s[i..i + 4];
    assert p[i + 4..] == m[..|m| - 1];
    assert forall k :: 0 <= k < |m| - 1 ==> p[i + 4..][k] == m[k];
    assert m[|m| - 1] == s[|s| - 2];
    assert StraAt(p, i);
    StraAtRun(p, i);
  }

  /** The test for the `stra[sß]+e$` alternative holds exactly when the pattern matches up to the end. */
  lemma StrasseIff(s: string)
    ensures EndsWithStrasse(s) <==> exists i :: StrasseAt(s, i)
  {
    if EndsWithStrasse(s) {
      StrasseOfRun(s);
    }
    if exists i :: StrasseAt(s, i) {
      var i :| StrasseAt(s, i);
      RunOfStrasse(s, i);
    }
  }

  // ---------------------------------------------------------------------
  // The list of bad names
  // ---------------------------------------------------------------------

  predicate NoDuplicates(s: seq<string>)
  {
    forall i, j :: 0 <= i < j < |s| ==> s[i] != s[j]
  }

  /** One step of collecting: a value the test rejects, not yet listed, is appended. */
  function AddNew(bad: string -> bool, names: seq<string>, name: string): seq<string>
  {
    if bad(name) && name !in names then names + [name] else names
  }

  /** Collecting the values in order. */
  function AddAllNew(bad: string -> bool, names: seq<string>, values: seq<string>): seq<string>
  {
    if values == [] then names
    else AddNew(bad, AddAllNew(bad, names, values[..|values| - 1]), values[|values| - 1])
  }

  /** A name `audit_street_name` reports: the pattern is nowhere in it. */
  predicate IsIllFormed(name: string)
  {
    !IsWellFormed(name)
  }

  /** The list after auditing one name: an ill-formed name not yet in it is appended. */
  function Audited(names: seq<string>, name: string): seq<string>
  {
    AddNew(IsIllFormed, names, name)
  }

  /** The list after auditing the values in order. */
  function AuditedAll(names: seq<string>, values: seq<string>): seq<string>
  {
    AddAllNew(IsIllFormed, names, values)
  }

  /**
   * The caller-owned list `street_types` that `audit_street_name` appends to.
   */
  class StreetTypes {
    var names: seq<string>

    constructor ()
      ensures names == []
    {
      names := [];
    }

    /** `audit_street_name(street_types, street_name)` */
    method AuditStreetName(streetName: string)
      modifies this
      ensures names == Audited(old(names), streetName)
    {
      if !IsWellFormed(streetName) && streetName !in names {
        names := names + [streetName];
      }
    }
  }

  /**
   * Auditing one name keeps the old list as a prefix, adds at most that name,
   * adds it exactly when it is ill formed and not yet present, and keeps the
   * list free of duplicates.
   */
  lemma AuditedSpec(names: seq<string>, name: string)
    ensures var r := Audited(names, name);
            && r[..|names|] == names
            && (r == names || r == names + [name])
            && (r == names + [name] <==> !IsWellFormed(name) && name !in names)
            && (NoDuplicates(names) ==> NoDuplicates(r))
  {
  }

  /** Auditing the same name twice has the effect of auditing it once. */
  lemma AuditedTwice(names: seq<string>, name: string)
    ensures Audited(Audited(names, name), name) == Audited(names, name)
  {
  }

  lemma {:induction false} AddAllNewAppend(bad: string -> bool, names: seq<string>, a: seq<string>, b: seq<string>)
    ensures AddAllNew(bad, names, a + b) == AddAllNew(bad, AddAllNew(bad, names, a), b)
    decreases |b|
  {
    if b == [] {
      assert a + b == a;
    } else {
      assert (a + b)[..|a + b| - 1] == a + b[..|b| - 1];
      AddAllNewAppend(bad, names, a, b[..|b| - 1]);
    }
  }

  lemma AuditedAllAppend(names: seq<string>, a: seq<string>, b: seq<string>)
    ensures AuditedAll(names, a + b) == AuditedAll(AuditedAll(names, a), b)
  {
    AddAllNewAppend(IsIllFormed, names, a, b);
  }

  lemma {:induction false} AddAllNewSpec(bad: string -> bool, names: seq<string>, values: seq<string>)
    requires NoDuplicates(names)
    ensures var r := AddAllNew(bad, names, values);
            && |names| <= |r|
            && r[..|names|] == names
            && NoDuplicates(r)
            && (forall x :: x in r <==> x in names || (x in values && bad(x)))
    decreases |values|
  {
    if values != [] {
      var init := values[..|values| - 1];
      AddAllNewSpec(bad, names, init);
      var r0 := AddAllNew(bad, names, init);
      assert values == init + [values[|values| - 1]];
      var r := AddAllNew(bad, names, values);
      assert r[..|names|] == r0[..|names|];
    }
  }

  /**
   * After auditing a sequence of values, the list holds the old entries
   * first, then exactly the ill-formed values that were not in it, with no
   * duplicates if there were none.
   */
  lemma AuditedAllSpec(names: seq<string>, values: seq<string>)
    requires NoDuplicates(names)
    ensures var r := AuditedAll(names, values);
            && |names| <= |r|
            && r[..|names|] == names
            && NoDuplicates(r)
            && (forall x :: x in r <==> x in names || (x in values && !IsWellFormed(x)))
  {
    AddAllNewSpec(IsIllFormed, names, values);
  }

  /** The position of the first occurrence of x in s. */
  function FirstIndex(s: seq<string>, x: string): nat
    requires x in s
  {
    IndexOf(s, x).value
  }

  /** The entries of r from position `from` on lie in values, in the order of their first occurrence there. */
  predicate Ordered(r: seq<string>, from: nat, values: seq<string>)
  {
    forall i, j :: from <= i < j < |r| ==>
      r[i] in values && r[j] in values && FirstIndex(values, r[i]) < FirstIndex(values, r[j])
  }

  /**
   * Entries ordered by first occurrence in init keep that order in init
   * extended by v, and a v new to init may follow them.
   */
  lemma OrderedSnoc(r: seq<string>, from: nat, init: seq<string>, v: string)
    requires Ordered(r, from, init)
    requires forall i :: from <= i < |r| ==> r[i] in init
    ensures Ordered(r, from, init + [v])
    ensures v !in init ==> Ordered(r + [v], from, init + [v])
  {
    var values := init + [v];
    assert values[..|init|] == init;
    forall x | x in init
      ensures x in values && FirstIndex(values, x) == FirstIndex(init, x)
    {
      var f := FirstIndex(init, x);
      assert values[f] == init[f];
      assert values[..f] == init[..f];
    }
    if v !in init {
      assert FirstIndex(values, v) == |init|;
    }
  }

  lemma {:induction false} AddAllNewOrder(bad: string -> bool, names: seq<string>, values: seq<string>)
    requires NoDuplicates(names)
    ensures Ordered(AddAllNew(bad, names, values), |names|, values)
    decreases |values|
  {
    if values != [] {
      var n := |values| - 1;
      var init := values[..n];
      var v := values[n];
      assert values == init + [v];
      AddAllNewOrder(bad, names, init);
      AddAllNewSpec(bad, names, init);
      var r0 := AddAllNew(bad, names, init);
      forall i | |names| <= i < |r0|
        ensures r0[i] in init
      {
        assert r0[i] in r0 && r0[i] !in names;
      }
      OrderedSnoc(r0, |names|, init, v);
    }
  }

  /** The newly added names come in the order of their first occurrence among the values. */
  lemma AuditedAllOrder(names: seq<string>, values: seq<string>)
    requires NoDuplicates(names)
    ensures Ordered(AuditedAll(names, values), |names|, values)
  {
    AddAllNewOrder(IsIllFormed, names, values);
  }

  /** Well-formed names never enter the list. */
  lemma WellFormedNeverAdded(names: seq<string>, values: seq<string>)
    requires NoDuplicates(names)
    ensures forall x :: x in AuditedAll(names, values) && IsWellFormed(x) ==> x in names
  {
    AuditedAllSpec(names, values);
  }

  // ---------------------------------------------------------------------
  // audit
  // ---------------------------------------------------------------------

  /** The value of a tag that `is_street_name` accepts; nothing for any other tag. */
  function StreetOf(t: Tag): seq<string>
  {
    if IsStreetName(t) then [t.value] else []
  }

  /** The values `audit` examines in one element: its `addr:street` tags when it is a `way` or a `node`. */
  function StreetValuesOf(e: ElementValue): seq<string>
  {
    if e.kind == "way" || e.kind == "node" then FlatMap(StreetOf, e.tags) else []
  }

  /** The values `audit` examines in the document, in document order. */
  function StreetValues(vs: seq<ElementValue>): seq<string>
  {
    FlatMap(StreetValuesOf, vs)
  }

  /** A value is examined exactly when it is the value of an `addr:street` tag of a node or way. */
  lemma StreetValuesSpec(vs: seq<ElementValue>)
    ensures forall v :: v in StreetValues(vs) <==>
              exists i, k :: 0 <= i < |vs| && (vs[i].kind == "way" || vs[i].kind == "node")
                             && 0 <= k < |vs[i].tags| && IsStreetName(vs[i].tags[k]) && vs[i].tags[k].value == v
  {
    FlatMapSound(StreetValuesOf, vs);
    forall v | v in StreetValues(vs)
      ensures exists i, k :: 0 <= i < |vs| && (vs[i].kind == "way" || vs[i].kind == "node")
                             && 0 <= k < |vs[i].tags| && IsStreetName(vs[i].tags[k]) && vs[i].tags[k].value == v
    {
      var i :| 0 <= i < |vs| && v in StreetValuesOf(vs[i]);
      FlatMapSound(StreetOf, vs[i].tags);
      var k :| 0 <= k < |vs[i].tags| && v in StreetOf(vs[i].tags[k]);
    }
    forall i, k | 0 <= i < |vs| && (vs[i].kind == "way" || vs[i].kind == "node")
                  && 0 <= k < |vs[i].tags| && IsStreetName(vs[i].tags[k])
      ensures vs[i].tags[k].value in StreetValues(vs)
    {
      FlatMapComplete(StreetOf, vs[i].tags, k);
      assert vs[i].tags[k].value in StreetOf(vs[i].tags[k]);
      FlatMapComplete(StreetValuesOf, vs, i);
    }
  }

  lemma AuditedAllStep(names: seq<string>, values: seq<string>, v: string)
    ensures AuditedAll(names, values + [v]) == Audited(AuditedAll(names, values), v)
  {
    assert (values + [v])[..|values|] == values;
  }

  /** The inner loop of `audit`: every `addr:street` tag of one element goes through `audit_street_name`. */
  method AuditTags(st: StreetTypes, tags: seq<TagNode>)
    modifies st
    ensures st.names == AuditedAll(old(st.names), FlatMap(StreetOf, old(Snapshots(tags))))
  {
    ghost var before := st.names;
    ghost var ts := Snapshots(tags);
    var k := 0;
    while k < |tags|
      invariant 0 <= k <= |tags|
      invariant st.names == AuditedAll(before, FlatMap(StreetOf, ts[..k]))
    {
      var tag := tags[k];
      ghost var prev := FlatMap(StreetOf, ts[..k]);
      FlatMapStep(StreetOf, ts, k);
      assert ts[k] == tag.Snapshot();
      if IsStreetName(tag.Snapshot()) {
        AuditedAllStep(before, prev, tag.value);
        st.AuditStreetName(tag.value);
      } else {
        assert prev + [] == prev;
      }
      k := k + 1;
    }
    assert ts[..k] == ts;
  }

  /** Auditing one more element: its street values, or none when it is neither a node nor a way. */
  lemma AuditedStep(vs: seq<ElementValue>, n: int)
    requires 0 <= n < |vs|
    ensures AuditedAll([], StreetValues(vs[..n + 1]))
            == AuditedAll(AuditedAll([], StreetValues(vs[..n])), StreetValuesOf(vs[n]))
    ensures vs[n].kind != "way" && vs[n].kind != "node" ==>
              AuditedAll([], StreetValues(vs[..n + 1])) == AuditedAll([], StreetValues(vs[..n]))
  {
    FlatMapStep(StreetValuesOf, vs, n);
    AuditedAllAppend([], StreetValues(vs[..n]), StreetValuesOf(vs[n]));
  }

  /** One step of `audit`'s outer loop: the tags of a node or way are audited, any other element is skipped. */
  method AuditElement(st: StreetTypes, e: Element)
    modifies st
    ensures st.names == AuditedAll(old(st.names), StreetValuesOf(old(Value(e))))
  {
    if e.kind == "way" || e.kind == "node" {
      AuditTags(st, e.tags);
    }
  }

  /** `audit`, given the parsed elements in document order: the bad street names, first-seen order. */
  method Audit(es: seq<Element>) returns (streetTypes: seq<string>)
    ensures streetTypes == AuditedAll([], StreetValues(Values(es)))
  {
    ghost var vs := Values(es);
    TagFootprintAllocated(es);
    var st := new StreetTypes();
    var n := 0;
    while n < |es|
      invariant 0 <= n <= |es|
      invariant st.names == AuditedAll([], StreetValues(vs[..n]))
      invariant Values(es) == vs
    {
      var e := es[n];
      AuditedStep(vs, n);
      assert vs[n] == Value(e);
      AuditElement(st, e);
      n := n + 1;
    }
    assert vs[..n] == vs;
    streetTypes := st.names;
  }

  // ---------------------------------------------------------------------
  // Examples
  // ---------------------------------------------------------------------

  /** Ending with the lower-case word w fixes the last letter. */
  lemma EndsWithWordLast(s: string, w: string)
    requires |w| > 0 && EndsWithWord(s, w)
    ensures LowerAscii(s[|s| - 1]) == w[|w| - 1]
  {
    assert Fold(s[|s| - |w|..])[|w| - 1] == LowerAscii(s[|s| - |w|..][|w| - 1]);
  }

  /** Beginning with the lower-case word w fixes the first letter. */
  lemma StartsWithWordFirst(s: string, w: string)
    requires |w| > 0 && StartsWithWord(s, w)
    ensures LowerAscii(s[0]) == w[0]
  {
    assert Fold(s[..|w|])[0] == LowerAscii(s[..|w|][0]);
  }

  /**
   * A name not ending in a newline whose last letter ends none of the
   * street-type words (nor `strasse`) and whose first letter begins none of
   * the prepositions is ill formed.
   */
  lemma IllFormedByEnds(name: string)
    requires |name| > 0 && name[|name| - 1] != '\n'
    requires LowerAscii(name[|name| - 1]) !in "egzrndfl"
    requires LowerAscii(name[0]) !in "aizpu"
    ensures !IsWellFormed(name)
  {
    assert Body(name) == name;
    forall w | w in Suffixes
      ensures !EndsWithWord(name, w)
    {
      if EndsWithWord(name, w) {
        EndsWithWordLast(name, w);
      }
    }
    if StartsWithWord(name, "zu") {
      StartsWithWordFirst(name, "zu");
    }
    if StartsWithWord(name, "platz") {
      StartsWithWordFirst(name, "platz");
    }
    if StartsWithWord(name, "unter") {
      StartsWithWordFirst(name, "unter");
    }
  }

  /** "XYZ123" and the abbreviation "Leopoldstr." are ill formed; auditing "XYZ123" twice records it once. */
  lemma ExampleIllFormed()
    ensures !IsWellFormed("XYZ123") && !IsWellFormed("Leopoldstr.")
    ensures AuditedAll([], ["XYZ123", "XYZ123"]) == ["XYZ123"]
  {
    IllFormedByEnds("XYZ123");
    IllFormedByEnds("Leopoldstr.");
    AuditedAllStep([], ["XYZ123"], "XYZ123");
    AuditedAllStep([], [], "XYZ123");
    assert [] + ["XYZ123"] == ["XYZ123"];
    assert ["XYZ123"] + ["XYZ123"] == ["XYZ123", "XYZ123"];
  }

  lemma ExampleStrasse()
    ensures IsWellFormed("Leopoldstraße")
  {
    var s := "Leopoldstraße";
    assert s[..|s| - 2][|s| - 6..] == "stra";
    assert EndsWithStrasse(s);
  }

  lemma ExampleHof()
    ensures IsWellFormed("Hauptbahnhof")
  {
    var s := "Hauptbahnhof";
    assert s[|s| - 3..] == "hof";
    assert "hof" in Suffixes;
  }
}
