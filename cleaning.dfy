/**
 * The element shaper of `cleaning.py`. A `node` or `way` element becomes
 * a record of its schema attributes plus one record per tag child, after
 * the tag has gone through the corrector; a way also gets one record per
 * `nd` child, numbered from 0. Tags whose key holds a problem character
 * are skipped before any correction. `process_map` routes the records of
 * every element into five tables, which stand in here for the CSV files.
 * The element's `id` is read for each kept tag and each `nd`; where it is
 * missing, the `KeyError` that ends the run is a `keyError` result.
 */
module Cleaning {
  import opened Wrappers
  import opened Text
  import opened Osm
  import CheckCorrect
  import PhoneNumbers

  /** `PROBLEMCHARS`: the characters a kept tag key may not contain. */
  const ProblemChars: set<char> :=
    {'=', '+', '/', '&', '<', '>', ';', '\'', '"', '?', '%', '#', ' ', '$', '@', ',', '.', '\t', '\r', '\n'}

  const NodeFields: seq<string> := ["id", "lat", "lon", "user", "uid", "version", "changeset", "timestamp"]
  const WayFields: seq<string> := ["id", "user", "uid", "version", "changeset", "timestamp"]
  const DefaultTagType: string := "regular"

  /** One row of the node or way tag table. */
  datatype TagRecord = TagRecord(id: string, key: string, value: string, tagType: string)

  /** One row of the way node table. */
  datatype WayNodeRecord = WayNodeRecord(id: string, nodeId: string, position: nat)

  // ---------------------------------------------------------------------
  // iter_tags
  // ---------------------------------------------------------------------

  /** `problem_chars.search(key)` finds something. */
  predicate HasProblemChar(key: string)
  {
    !NoneIn(key, ProblemChars)
  }

  /** The corrector `iter_tags` runs on a tag of an element of this kind. */
  function Corrected(cfg: CheckCorrect.Config, kind: string, t: Tag): Tag
  {
    if kind == "node" || kind == "way" then CheckCorrect.Outcome(cfg, kind == "node", t) else t
  }

  /** A tag after `iter_tags`: corrected unless its key was a problem. */
  function TagAfter(cfg: CheckCorrect.Config, kind: string, t: Tag): Tag
  {
    if HasProblemChar(t.key) then t else Corrected(cfg, kind, t)
  }

  /** The type and key of a tag row: split at the first colon, or type `regular`. */
  datatype KeyParts = KeyParts(tagType: string, key: string)

  function SplitKey(key: string): KeyParts
  {
    var s := Split(key, {':'});
    if |s| > 1 then KeyParts(s[0], Join(s[1..], ':')) else KeyParts(DefaultTagType, key)
  }

  /**
   * A key without a colon keeps its key and gets the type `regular`; any
   * other is cut at its first colon, later colons staying in the key, and
   * type, colon and key put back together give the original key.
   */
  lemma SplitKeySpec(key: string)
    ensures ':' !in key ==> SplitKey(key) == KeyParts(DefaultTagType, key)
    ensures ':' in key ==>
              var i := IndexOf(key, ':').value;
              SplitKey(key) == KeyParts(key[..i], key[i + 1..])
              && SplitKey(key).tagType + ":" + SplitKey(key).key == key
  {
    match IndexOf(key, ':')
    case None =>
      SplitOne(key, ':');
    case Some(i) =>
      SplitKeyAt(key, i);
      Around(key, i);
  }

  lemma Around(s: string, i: nat)
    requires i < |s|
    ensures s[..i] + [s[i]] + s[i + 1..] == s
  {
    assert s == s[..i] + s[i..];
    assert s[i..] == [s[i]] + s[i + 1..];
  }

  lemma SplitKeyAt(key: string, i: nat)
    requires IndexOf(key, ':') == Some(i)
    ensures SplitKey(key) == KeyParts(key[..i], key[i + 1..])
  {
    SplitOne(key, ':');
    var s := Split(key, {':'});
    var rest := Split(key[i + 1..], {':'});
    assert s == [key[..i]] + rest;
    assert s[1..] == rest;
    JoinSplit(key[i + 1..], ':');
  }

  /** The row `iter_tags` writes for a tag, after correction. */
  function Record(id: string, t: Tag): TagRecord
  {
    var p := SplitKey(t.key);
    TagRecord(id, p.key, t.value, p.tagType)
  }

  /** The rows `iter_tags` appends for tags with these keys and values, in order. */
  function TagRecords(cfg: CheckCorrect.Config, kind: string, id: string, tags: seq<Tag>): seq<TagRecord>
  {
    if tags == [] then []
    else
      var t := tags[|tags| - 1];
      TagRecords(cfg, kind, id, tags[..|tags| - 1])
      + (if HasProblemChar(t.key) then [] else [Record(id, Corrected(cfg, kind, t))])
  }

  /** The tags without a problem character in their key, in order. */
  function Kept(tags: seq<Tag>): (r: seq<Tag>)
    ensures forall k :: 0 <= k < |r| ==> !HasProblemChar(r[k].key)
    ensures |r| <= |tags|
  {
    if tags == [] then []
    else
      var t := tags[|tags| - 1];
      Kept(tags[..|tags| - 1]) + (if HasProblemChar(t.key) then [] else [t])
  }

  /** A tag is kept exactly when its key has no problem character. */
  lemma {:induction false} KeptSpec(tags: seq<Tag>)
    ensures forall t :: t in Kept(tags) <==> t in tags && !HasProblemChar(t.key)
    decreases |tags|
  {
    if tags != [] {
      var init := tags[..|tags| - 1];
      KeptSpec(init);
      assert tags == init + [tags[|tags| - 1]];
    }
  }

  /**
   * There is one row per kept tag, in the order of the tags, each carrying
   * the element's id and the corrected key and value.
   */
  lemma {:induction false} TagRecordsSpec(cfg: CheckCorrect.Config, kind: string, id: string, tags: seq<Tag>)
    ensures var rs := TagRecords(cfg, kind, id, tags);
            |rs| == |Kept(tags)|
            && forall k :: 0 <= k < |rs| ==> rs[k] == Record(id, Corrected(cfg, kind, Kept(tags)[k]))
    decreases |tags|
  {
    if tags != [] {
      TagRecordsSpec(cfg, kind, id, tags[..|tags| - 1]);
    }
  }

  /** A quarantined phone number is written as a `regular` tag with the key `phone_bad`. */
  lemma QuarantinedPhoneRecord(cfg: CheckCorrect.Config, kind: string, id: string, t: Tag)
    requires kind == "node" || kind == "way"
    requires t.key == CheckCorrect.PhoneTag
    requires PhoneNumbers.CleanPhoneNo(t.value).None?
    ensures Record(id, Corrected(cfg, kind, t)) == TagRecord(id, CheckCorrect.PhoneBadTag, t.value, DefaultTagType)
  {
    var bad := CheckCorrect.PhoneBadTag;
    assert ':' !in bad;
    SplitKeySpec(bad);
  }

  /** Every key holds a problem character: `iter_tags` skips every tag. */
  predicate AllProblems(tags: seq<Tag>)
  {
    forall k :: 0 <= k < |tags| ==> HasProblemChar(tags[k].key)
  }

  /** The position of the first tag `iter_tags` does not skip, if there is one. */
  function FirstKept(tags: seq<Tag>): (r: Option<nat>)
    ensures r.None? <==> AllProblems(tags)
    ensures r.Some? ==> r.value < |tags| && !HasProblemChar(tags[r.value].key)
                        && forall k :: 0 <= k < r.value ==> HasProblemChar(tags[k].key)
  {
    FirstKeptFrom(tags, 0)
  }

  function FirstKeptFrom(tags: seq<Tag>, i: nat): (r: Option<nat>)
    requires i <= |tags|
    requires forall k :: 0 <= k < i ==> HasProblemChar(tags[k].key)
    ensures r.None? <==> AllProblems(tags)
    ensures r.Some? ==> i <= r.value < |tags| && !HasProblemChar(tags[r.value].key)
                        && forall k :: 0 <= k < r.value ==> HasProblemChar(tags[k].key)
    decreases |tags| - i
  {
    if i == |tags| then None
    else if !HasProblemChar(tags[i].key) then Some(i)
    else FirstKeptFrom(tags, i + 1)
  }

  /** Tags whose keys are all problems give no rows and are left as they are. */
  lemma {:induction false} ProblemsUntouched(cfg: CheckCorrect.Config, kind: string, tags: seq<Tag>)
    requires AllProblems(tags)
    ensures Kept(tags) == []
    ensures AfterAll(cfg, kind, tags) == tags
    decreases |tags|
  {
    if tags != [] {
      var init, last := tags[..|tags| - 1], tags[|tags| - 1];
      assert forall k :: 0 <= k < |init| ==> init[k] == tags[k];
      ProblemsUntouched(cfg, kind, init);
      assert tags == init + [last];
    }
  }

  lemma TagRecordsStep(cfg: CheckCorrect.Config, kind: string, id: string, tags: seq<Tag>, k: int)
    requires 0 <= k < |tags|
    ensures TagRecords(cfg, kind, id, tags[..k + 1])
            == TagRecords(cfg, kind, id, tags[..k])
               + (if HasProblemChar(tags[k].key) then [] else [Record(id, Corrected(cfg, kind, tags[k]))])
  {
    assert tags[..k + 1][..k] == tags[..k];
  }

  /** The corrector call `iter_tags` makes for a tag of an element of this kind. */
  method CorrectFor(cfg: CheckCorrect.Config, kind: string, tag: TagNode)
    modifies tag
    ensures tag.Snapshot() == Corrected(cfg, kind, old(tag.Snapshot()))
  {
    CheckCorrect.ChainOutcome(cfg, tag.Snapshot());
    if kind == "node" {
      CheckCorrect.CorrectNode(cfg, tag);
    }
    if kind == "way" {
      CheckCorrect.CorrectWay(cfg, tag);
    }
  }

  /** Each tag as `iter_tags` leaves it, in order. */
  function AfterAll(cfg: CheckCorrect.Config, kind: string, tags: seq<Tag>): (r: seq<Tag>)
    ensures |r| == |tags|
  {
    if tags == [] then [] else AfterAll(cfg, kind, tags[..|tags| - 1]) + [TagAfter(cfg, kind, tags[|tags| - 1])]
  }

  /** A tag with a problem character is left as it is; every other tag is corrected for its element kind. */
  lemma {:induction false} AfterAllSpec(cfg: CheckCorrect.Config, kind: string, tags: seq<Tag>)
    ensures var r := AfterAll(cfg, kind, tags);
            (forall k :: 0 <= k < |tags| && HasProblemChar(tags[k].key) ==> r[k] == tags[k])
            && (forall k :: 0 <= k < |tags| && !HasProblemChar(tags[k].key) ==> r[k] == Corrected(cfg, kind, tags[k]))
    decreases |tags|
  {
    if tags != [] {
      AfterAllSpec(cfg, kind, tags[..|tags| - 1]);
    }
  }

  /**
   * `iter_tags`, given the element's `id` if it has one: the rows of the
   * element's tags are appended to `tags`, and every tag without a problem
   * character is corrected in place. Without an `id`, the first tag kept
   * raises `KeyError` after it has been corrected, before its row exists.
   */
  method IterTags(cfg: CheckCorrect.Config, children: seq<TagNode>, id: Option<string>, kind: string,
                  tags: seq<TagRecord>)
    returns (out: seq<TagRecord>, keyError: bool)
    requires DistinctTags(children)
    modifies set t | t in children
    ensures keyError <==> id.None? && !AllProblems(old(Snapshots(children)))
    ensures !keyError && id.Some? ==> out == tags + TagRecords(cfg, kind, id.value, old(Snapshots(children)))
    ensures !keyError && id.None? ==> out == tags
    ensures !keyError ==> Snapshots(children) == AfterAll(cfg, kind, old(Snapshots(children)))
    ensures keyError ==> Snapshots(children) == Interrupted(cfg, kind, old(Snapshots(children)))
  {
    ghost var snaps := Snapshots(children);
    out := tags;
    keyError := false;
    var k := 0;
    ProgressStart(cfg, kind, id, tags, snaps);
    while k < |children|
      invariant Progress(cfg, kind, id, tags, snaps, k, out, Snapshots(children))
    {
      out, keyError := IterTagsPass(cfg, children, k, id, kind, tags, snaps, out);
      if keyError {
        return;
      }
      k := k + 1;
    }
    ProgressDone(cfg, kind, id, tags, snaps, k, out, Snapshots(children));
  }

  /** The `iter_tags` loop has handled its first `k` tags without a `KeyError`. */
  ghost predicate Progress(cfg: CheckCorrect.Config, kind: string, id: Option<string>, tags: seq<TagRecord>,
                           snaps: seq<Tag>, k: int, out: seq<TagRecord>, now: seq<Tag>)
  {
    0 <= k <= |snaps|
    && (id.Some? ==> out == tags + TagRecords(cfg, kind, id.value, snaps[..k]))
    && (id.None? ==> out == tags && AllProblems(snaps[..k]))
    && now == AfterAll(cfg, kind, snaps[..k]) + snaps[k..]
  }

  /** Before the `iter_tags` loop: no tag handled, no row appended. */
  lemma ProgressStart(cfg: CheckCorrect.Config, kind: string, id: Option<string>, tags: seq<TagRecord>, snaps: seq<Tag>)
    ensures Progress(cfg, kind, id, tags, snaps, 0, tags, snaps)
  {
    assert snaps[..0] == [] && snaps[0..] == snaps;
  }

  /** After the `iter_tags` loop: every tag handled without `KeyError`. */
  lemma ProgressDone(cfg: CheckCorrect.Config, kind: string, id: Option<string>, tags: seq<TagRecord>,
                     snaps: seq<Tag>, k: int, out: seq<TagRecord>, now: seq<Tag>)
    requires Progress(cfg, kind, id, tags, snaps, k, out, now) && k >= |snaps|
    ensures id.Some? ==> out == tags + TagRecords(cfg, kind, id.value, snaps)
    ensures id.None? ==> out == tags && AllProblems(snaps)
    ensures now == AfterAll(cfg, kind, snaps)
  {
    assert k == |snaps| && snaps[..k] == snaps && snaps[k..] == [];
  }

  /** One pass of the `iter_tags` loop, as the loop sees it. */
  method IterTagsPass(cfg: CheckCorrect.Config, children: seq<TagNode>, k: int, id: Option<string>, kind: string,
                      ghost tags: seq<TagRecord>, ghost snaps: seq<Tag>, before: seq<TagRecord>)
    returns (out: seq<TagRecord>, keyError: bool)
    requires 0 <= k < |children| && DistinctTags(children)
    requires Progress(cfg, kind, id, tags, snaps, k, before, Snapshots(children))
    modifies children[k]
    ensures !keyError ==> Progress(cfg, kind, id, tags, snaps, k + 1, out, Snapshots(children))
    ensures keyError ==> id.None? && !AllProblems(snaps) && Snapshots(children) == Interrupted(cfg, kind, snaps)
  {
    ghost var now := Snapshots(children);
    out, keyError := IterTag(cfg, children, k, id, kind, before);
    ProgressStep(cfg, kind, id, tags, snaps, k, before, now, out, Snapshots(children), keyError);
  }

  /** One pass of the `iter_tags` loop: it goes on, or it stops at the first tag it keeps for want of an `id`. */
  lemma ProgressStep(cfg: CheckCorrect.Config, kind: string, id: Option<string>, tags: seq<TagRecord>,
                     snaps: seq<Tag>, k: int, before: seq<TagRecord>, now: seq<Tag>,
                     out: seq<TagRecord>, next: seq<Tag>, keyError: bool)
    requires Progress(cfg, kind, id, tags, snaps, k, before, now) && k < |snaps|
    requires keyError <==> id.None? && !HasProblemChar(now[k].key)
    requires !keyError && id.Some? ==>
               out == before + (if HasProblemChar(now[k].key) then [] else [Record(id.value, Corrected(cfg, kind, now[k]))])
    requires !keyError && id.None? ==> out == before
    requires next == now[k := TagAfter(cfg, kind, now[k])]
    ensures !keyError ==> Progress(cfg, kind, id, tags, snaps, k + 1, out, next)
    ensures keyError ==> !AllProblems(snaps) && next == Interrupted(cfg, kind, snaps)
  {
    assert now[k] == snaps[k] by {
      assert now[k] == snaps[k..][0];
    }
    AfterAllStep(cfg, kind, snaps, k);
    if id.Some? {
      TagRecordsStep(cfg, kind, id.value, snaps, k);
    } else if !keyError {
      assert snaps[..k + 1] == snaps[..k] + [snaps[k]];
    }
    if keyError {
      InterruptedAt(cfg, kind, snaps, k);
    }
  }

  /** One more tag handled by `iter_tags`. */
  lemma AfterAllStep(cfg: CheckCorrect.Config, kind: string, tags: seq<Tag>, k: int)
    requires 0 <= k < |tags|
    ensures AfterAll(cfg, kind, tags[..k + 1]) + tags[k + 1..]
            == (AfterAll(cfg, kind, tags[..k]) + tags[k..])[k := TagAfter(cfg, kind, tags[k])]
  {
    assert tags[..k + 1][..k] == tags[..k];
  }

  /**
   * The tags when a `KeyError` breaks off `iter_tags` at the first tag it
   * keeps: that tag has been corrected and every other one is as it was.
   */
  function Interrupted(cfg: CheckCorrect.Config, kind: string, tags: seq<Tag>): (r: seq<Tag>)
    requires !AllProblems(tags)
  {
    var f := FirstKept(tags).value;
    tags[f := Corrected(cfg, kind, tags[f])]
  }

  /** Broken off at tag `k`, the first one kept: the tags are `Interrupted`. */
  lemma InterruptedAt(cfg: CheckCorrect.Config, kind: string, tags: seq<Tag>, k: int)
    requires 0 <= k < |tags| && !HasProblemChar(tags[k].key)
    requires forall j :: 0 <= j < k ==> HasProblemChar(tags[j].key)
    ensures !AllProblems(tags)
    ensures (AfterAll(cfg, kind, tags[..k]) + tags[k..])[k := TagAfter(cfg, kind, tags[k])]
            == Interrupted(cfg, kind, tags)
  {
    var f := FirstKept(tags);
    assert f.Some? && f.value == k by {
      if f.None? || f.value < k {} else if f.value > k {}
    }
    ProblemsUntouched(cfg, kind, tags[..k]);
    assert tags[..k] + tags[k..] == tags;
  }

  /**
   * The body of the `iter_tags` loop for the k-th tag: skip it, or correct
   * it and append its row, which reads the element's `id`.
   */
  method IterTag(cfg: CheckCorrect.Config, children: seq<TagNode>, k: int, id: Option<string>, kind: string,
                 tags: seq<TagRecord>)
    returns (out: seq<TagRecord>, keyError: bool)
    requires 0 <= k < |children| && DistinctTags(children)
    modifies children[k]
    ensures keyError <==> id.None? && !HasProblemChar(old(Snapshots(children))[k].key)
    ensures !keyError && id.Some? ==>
              out == tags + (if HasProblemChar(old(Snapshots(children))[k].key) then []
                             else [Record(id.value, Corrected(cfg, kind, old(Snapshots(children))[k]))])
    ensures !keyError && id.None? ==> out == tags
    ensures Snapshots(children) == old(Snapshots(children))[k := TagAfter(cfg, kind, old(Snapshots(children))[k])]
  {
    ghost var snaps := Snapshots(children);
    var tag := children[k];
    out := tags;
    keyError := false;
    if !HasProblemChar(tag.key) {
      CorrectFor(cfg, kind, tag);
      var p := SplitKey(tag.key);
      match id
      case None =>
        keyError := true;
      case Some(elementId) =>
        out := out + [TagRecord(elementId, p.key, tag.value, p.tagType)];
    }
    DistinctTagsSpec(children);
    forall j | 0 <= j < |children| && j != k
      ensures children[j].Snapshot() == snaps[j]
    {
      assert children[j] != tag by {
        if j < k { assert children[j] != children[k]; } else { assert children[k] != children[j]; }
      }
    }
  }

  /** Leaving tags of other elements alone: `iter_tags` only runs for nodes and ways. */
  lemma {:induction false} AfterAllOtherKind(cfg: CheckCorrect.Config, kind: string, tags: seq<Tag>)
    requires kind != "node" && kind != "way"
    ensures AfterAll(cfg, kind, tags) == tags
    decreases |tags|
  {
    if tags != [] {
      var init, last := tags[..|tags| - 1], tags[|tags| - 1];
      AfterAllOtherKind(cfg, kind, init);
      assert TagAfter(cfg, kind, last) == last;
      assert tags == init + [last];
    }
  }

  // ---------------------------------------------------------------------
  // shape_element
  // ---------------------------------------------------------------------

  /** The attributes whose names are among the fields, with their values. */
  function Attribs(attrs: map<string, string>, fields: seq<string>): map<string, string>
  {
    map k | k in attrs && k in fields :: attrs[k]
  }

  /** The attribute loop of `shape_element`, in whatever order the dictionary yields its items. */
  method RestrictAttribs(attrs: map<string, string>, fields: seq<string>) returns (r: map<string, string>)
    ensures forall k :: k in r <==> k in attrs && k in fields
    ensures forall k :: k in r ==> r[k] == attrs[k]
    ensures r == Attribs(attrs, fields)
  {
    r := map[];
    var rest := attrs.Keys;
    while rest != {}
      invariant rest <= attrs.Keys
      invariant forall k :: k in r <==> k in attrs && k !in rest && k in fields
      invariant forall k :: k in r ==> r[k] == attrs[k]
      decreases |rest|
    {
      var key :| key in rest;
      if key in fields {
        r := r[key := attrs[key]];
      }
      rest := rest - {key};
    }
  }

  /** The way node rows of a way with this id and these `nd` references. */
  function WayNodesOf(id: string, nds: seq<string>): (r: seq<WayNodeRecord>)
    ensures |r| == |nds|
    ensures forall i :: 0 <= i < |nds| ==> r[i] == WayNodeRecord(id, nds[i], i)
  {
    if nds == [] then [] else WayNodesOf(id, nds[..|nds| - 1]) + [WayNodeRecord(id, nds[|nds| - 1], |nds| - 1)]
  }

  /**
   * The `enumerate` loop over the `nd` children of a way, given the way's
   * `id` if it has one: without it, the first `nd` raises `KeyError`.
   */
  method WayNodes(id: Option<string>, nds: seq<string>) returns (wayNodes: seq<WayNodeRecord>, keyError: bool)
    ensures keyError <==> id.None? && nds != []
    ensures !keyError && id.Some? ==> wayNodes == WayNodesOf(id.value, nds)
    ensures !keyError && id.None? ==> wayNodes == []
  {
    wayNodes := [];
    keyError := false;
    var i := 0;
    while i < |nds|
      invariant 0 <= i <= |nds|
      invariant id.None? ==> i == 0 && wayNodes == []
      invariant id.Some? ==> wayNodes == WayNodesOf(id.value, nds[..i])
    {
      match id
      case None =>
        keyError := true;
        return;
      case Some(elementId) =>
        assert nds[..i + 1][..i] == nds[..i];
        wayNodes := wayNodes + [WayNodeRecord(elementId, nds[i], i)];
        i := i + 1;
    }
    assert nds[..i] == nds;
  }

  /** What `shape_element` returns for a node or a way. */
  datatype Shaped =
    | NodeShape(node: map<string, string>, nodeTags: seq<TagRecord>)
    | WayShape(way: map<string, string>, wayNodes: seq<WayNodeRecord>, wayTags: seq<TagRecord>)

  /** `element.attrib['id']`, or nothing where it would raise `KeyError`. */
  function IdOf(attrs: map<string, string>): (r: Option<string>)
    ensures r.Some? <==> "id" in attrs
    ensures r.Some? ==> r.value == attrs["id"]
  {
    if "id" in attrs then Some(attrs["id"]) else None
  }

  /** `shape_element` reads the element's `id`: for a tag it keeps, or for an `nd` of a way. */
  predicate NeedsId(v: ElementValue)
  {
    (v.kind == "node" && !AllProblems(v.tags)) || (v.kind == "way" && (!AllProblems(v.tags) || v.nds != []))
  }

  /** `shape_element` finishes without `KeyError`. */
  predicate Shapeable(v: ElementValue)
  {
    NeedsId(v) ==> "id" in v.attrs
  }

  /** The rows of the element's tags: none when it has no `id`, for then it has no tag to keep. */
  function RowsFor(cfg: CheckCorrect.Config, v: ElementValue): seq<TagRecord>
  {
    if "id" in v.attrs then TagRecords(cfg, v.kind, v.attrs["id"], v.tags) else []
  }

  /** `shape_element` on an element with these tags, when it finishes. */
  function ShapeOf(cfg: CheckCorrect.Config, v: ElementValue): Option<Shaped>
    requires Shapeable(v)
  {
    if v.kind == "node" then
      Some(NodeShape(Attribs(v.attrs, NodeFields), RowsFor(cfg, v)))
    else if v.kind == "way" then
      Some(WayShape(Attribs(v.attrs, WayFields), if "id" in v.attrs then WayNodesOf(v.attrs["id"], v.nds) else [],
                    RowsFor(cfg, v)))
    else None
  }

  /**
   * Only nodes and ways are shaped, each into its own kind of record, whose
   * attributes are the element's schema fields, with one row per kept tag
   * and per `nd`, every row carrying the element's id.
   */
  lemma ShapeOfSpec(cfg: CheckCorrect.Config, v: ElementValue)
    requires Shapeable(v)
    ensures ShapeOf(cfg, v).None? <==> v.kind != "node" && v.kind != "way"
    ensures v.kind == "node" ==>
              var r := ShapeOf(cfg, v).value;
              r.NodeShape?
              && (forall k :: k in r.node <==> k in v.attrs && k in NodeFields)
              && (forall k :: k in r.node ==> r.node[k] == v.attrs[k])
              && |r.nodeTags| == |Kept(v.tags)|
              && (forall k :: 0 <= k < |r.nodeTags| ==> "id" in v.attrs && r.nodeTags[k].id == v.attrs["id"])
    ensures v.kind == "way" ==>
              var r := ShapeOf(cfg, v).value;
              r.WayShape?
              && (forall k :: k in r.way <==> k in v.attrs && k in WayFields)
              && (forall k :: k in r.way ==> r.way[k] == v.attrs[k])
              && |r.wayTags| == |Kept(v.tags)|
              && (forall k :: 0 <= k < |r.wayTags| ==> "id" in v.attrs && r.wayTags[k].id == v.attrs["id"])
              && |r.wayNodes| == |v.nds|
              && (forall k :: 0 <= k < |r.wayNodes| ==> "id" in v.attrs && r.wayNodes[k].id == v.attrs["id"])
  {
    if "id" in v.attrs {
      TagRecordsSpec(cfg, v.kind, v.attrs["id"], v.tags);
    } else if v.kind == "node" || v.kind == "way" {
      ProblemsUntouched(cfg, v.kind, v.tags);
    }
  }

  /** The tags after `shape_element`, or after the `KeyError` that broke it off. */
  function ShapedTags(cfg: CheckCorrect.Config, v: ElementValue): seq<Tag>
  {
    if (v.kind == "node" || v.kind == "way") && "id" !in v.attrs && !AllProblems(v.tags) then
      Interrupted(cfg, v.kind, v.tags)
    else AfterAll(cfg, v.kind, v.tags)
  }

  /**
   * When `shape_element` finishes, the tags are as `iter_tags` leaves them;
   * when it raises `KeyError`, only the first tag kept has been corrected.
   */
  lemma ShapedTagsSpec(cfg: CheckCorrect.Config, v: ElementValue)
    ensures Shapeable(v) ==> ShapedTags(cfg, v) == AfterAll(cfg, v.kind, v.tags)
    ensures !Shapeable(v) ==>
              var r := ShapedTags(cfg, v);
              |r| == |v.tags|
              && forall k :: 0 <= k < |r| ==>
                   r[k] == (if FirstKept(v.tags) == Some(k) then Corrected(cfg, v.kind, v.tags[k]) else v.tags[k])
  {
    if !Shapeable(v) && AllProblems(v.tags) {
      ProblemsUntouched(cfg, v.kind, v.tags);
    }
  }

  /**
   * `shape_element`: the records of a node or a way, its tags corrected in
   * place, or `KeyError` for an element without the `id` it needs.
   */
  method ShapeElement(cfg: CheckCorrect.Config, e: Element) returns (r: Option<Shaped>, keyError: bool)
    requires DistinctTags(e.tags)
    modifies set t | t in e.tags
    ensures keyError <==> !Shapeable(old(Value(e)))
    ensures !keyError ==> Shapeable(old(Value(e))) && r == ShapeOf(cfg, old(Value(e)))
    ensures Snapshots(e.tags) == ShapedTags(cfg, old(Value(e)))
  {
    if e.kind == "node" {
      var node;
      node, keyError := ShapeNode(cfg, e);
      r := Some(node);
    } else if e.kind == "way" {
      var way;
      way, keyError := ShapeWay(cfg, e);
      r := Some(way);
    } else {
      AfterAllOtherKind(cfg, e.kind, Snapshots(e.tags));
      r := None;
      keyError := false;
    }
  }

  /** The `node` branch of `shape_element`. */
  method ShapeNode(cfg: CheckCorrect.Config, e: Element) returns (r: Shaped, keyError: bool)
    requires e.kind == "node"
    requires DistinctTags(e.tags)
    modifies set t | t in e.tags
    ensures keyError <==> !Shapeable(old(Value(e)))
    ensures !keyError ==> Shapeable(old(Value(e))) && Some(r) == ShapeOf(cfg, old(Value(e)))
    ensures Snapshots(e.tags) == ShapedTags(cfg, old(Value(e)))
  {
    ghost var v := Value(e);
    var nodeAttribs := RestrictAttribs(e.attrs, NodeFields);
    var nodeTags;
    nodeTags, keyError := IterTags(cfg, e.tags, IdOf(e.attrs), "node", []);
    assert !keyError ==> nodeTags == RowsFor(cfg, v);
    r := NodeShape(nodeAttribs, nodeTags);
  }

  /** The `way` branch of `shape_element`. */
  method ShapeWay(cfg: CheckCorrect.Config, e: Element) returns (r: Shaped, keyError: bool)
    requires e.kind == "way"
    requires DistinctTags(e.tags)
    modifies set t | t in e.tags
    ensures keyError <==> !Shapeable(old(Value(e)))
    ensures !keyError ==> Shapeable(old(Value(e))) && Some(r) == ShapeOf(cfg, old(Value(e)))
    ensures Snapshots(e.tags) == ShapedTags(cfg, old(Value(e)))
  {
    ghost var v := Value(e);
    var wayAttribs := RestrictAttribs(e.attrs, WayFields);
    var id := IdOf(e.attrs);
    var wayTags;
    wayTags, keyError := IterTags(cfg, e.tags, id, "way", []);
    if keyError {
      r := WayShape(wayAttribs, [], wayTags);
      return;
    }
    assert wayTags == RowsFor(cfg, v);
    var wayNodes;
    wayNodes, keyError := WayNodes(id, e.nds);
    r := WayShape(wayAttribs, wayNodes, wayTags);
  }

  // ---------------------------------------------------------------------
  // process_map
  // ---------------------------------------------------------------------

  /** The rows written to `nodes.csv`, `nodes_tags.csv`, `ways.csv`, `ways_nodes.csv` and `ways_tags.csv`. */
  datatype Tables = Tables(
    nodes: seq<map<string, string>>,
    nodeTags: seq<TagRecord>,
    ways: seq<map<string, string>>,
    wayNodes: seq<WayNodeRecord>,
    wayTags: seq<TagRecord>)

  const NoRows: Tables := Tables([], [], [], [], [])

  /** The writer calls for one shaped element. */
  function Route(t: Tables, s: Option<Shaped>): Tables
  {
    match s
    case None => t
    case Some(NodeShape(node, nodeTags)) => t.(nodes := t.nodes + [node], nodeTags := t.nodeTags + nodeTags)
    case Some(WayShape(way, wayNodes, wayTags)) =>
      t.(ways := t.ways + [way], wayNodes := t.wayNodes + wayNodes, wayTags := t.wayTags + wayTags)
  }

  /** None of the elements makes `shape_element` raise `KeyError`. */
  predicate AllShapeable(vs: seq<ElementValue>)
  {
    forall i :: 0 <= i < |vs| ==> Shapeable(vs[i])
  }

  /** How many elements `process_map` shapes before the first one that raises `KeyError`. */
  function ShapeablePrefix(vs: seq<ElementValue>): (n: nat)
    ensures n <= |vs| && AllShapeable(vs[..n])
    ensures forall i :: 0 <= i < n ==> Shapeable(vs[i])
    ensures n < |vs| ==> !Shapeable(vs[n])
    ensures n == |vs| <==> AllShapeable(vs)
  {
    ShapeableFrom(vs, 0)
  }

  function ShapeableFrom(vs: seq<ElementValue>, i: nat): (n: nat)
    requires i <= |vs| && forall j :: 0 <= j < i ==> Shapeable(vs[j])
    ensures i <= n <= |vs| && forall j :: 0 <= j < n ==> Shapeable(vs[j])
    ensures n < |vs| ==> !Shapeable(vs[n])
    decreases |vs| - i
  {
    if i == |vs| || !Shapeable(vs[i]) then i else ShapeableFrom(vs, i + 1)
  }

  /** The rows `process_map` writes after `t` for these elements, in document order. */
  function Feed(cfg: CheckCorrect.Config, t: Tables, vs: seq<ElementValue>): Tables
    requires AllShapeable(vs)
  {
    if vs == [] then t else Route(Feed(cfg, t, vs[..|vs| - 1]), ShapeOf(cfg, vs[|vs| - 1]))
  }

  /** Feeding two stretches of a document is feeding them one after the other. */
  lemma {:induction false} FeedAppend(cfg: CheckCorrect.Config, t: Tables, a: seq<ElementValue>, b: seq<ElementValue>)
    requires AllShapeable(a) && AllShapeable(b)
    ensures AllShapeable(a + b)
    ensures Feed(cfg, t, a + b) == Feed(cfg, Feed(cfg, t, a), b)
    decreases |b|
  {
    if b == [] {
      assert a + b == a;
    } else {
      var b0 := b[..|b| - 1];
      assert (a + b)[..|a + b| - 1] == a + b0;
      FeedAppend(cfg, t, a, b0);
    }
  }

  /** Elements other than nodes and ways leave the tables as they are, wherever they stand. */
  lemma OtherElementsIgnored(cfg: CheckCorrect.Config, a: seq<ElementValue>, v: ElementValue, b: seq<ElementValue>)
    requires AllShapeable(a) && AllShapeable(b)
    requires v.kind != "node" && v.kind != "way"
    ensures AllShapeable(a + [v] + b)
    ensures Feed(cfg, NoRows, a + [v] + b) == Feed(cfg, NoRows, a + b)
  {
    FeedAppend(cfg, NoRows, a + [v], b);
    FeedAppend(cfg, NoRows, a, b);
    assert (a + [v])[..|a|] == a;
  }

  /** How many of the elements are of this kind. */
  function CountKind(vs: seq<ElementValue>, kind: string): nat
  {
    if vs == [] then 0 else CountKind(vs[..|vs| - 1], kind) + (if vs[|vs| - 1].kind == kind then 1 else 0)
  }

  /** One node row per node and one way row per way. */
  lemma {:induction false} FeedCounts(cfg: CheckCorrect.Config, vs: seq<ElementValue>)
    requires AllShapeable(vs)
    ensures |Feed(cfg, NoRows, vs).nodes| == CountKind(vs, "node")
    ensures |Feed(cfg, NoRows, vs).ways| == CountKind(vs, "way")
    decreases |vs|
  {
    if vs != [] {
      FeedCounts(cfg, vs[..|vs| - 1]);
    }
  }

  /** Some element of this kind has this id. */
  predicate IsIdOf(vs: seq<ElementValue>, kind: string, id: string)
  {
    exists i :: 0 <= i < |vs| && vs[i].kind == kind && "id" in vs[i].attrs && vs[i].attrs["id"] == id
  }

  lemma IsIdOfPrefix(vs: seq<ElementValue>, n: int, kind: string, id: string)
    requires 0 <= n <= |vs| && IsIdOf(vs[..n], kind, id)
    ensures IsIdOf(vs, kind, id)
  {
    var i :| 0 <= i < n && vs[..n][i].kind == kind && "id" in vs[..n][i].attrs && vs[..n][i].attrs["id"] == id;
    assert vs[..n][i] == vs[i];
  }

  /** Rows that all carry the id of an element of this kind. */
  predicate RowsOf(vs: seq<ElementValue>, kind: string, ids: seq<string>)
  {
    forall k :: 0 <= k < |ids| ==> IsIdOf(vs, kind, ids[k])
  }

  /** The `id` column of these rows. */
  function Ids<R>(rows: seq<R>, id: R -> string): (r: seq<string>)
    ensures |r| == |rows| && forall k :: 0 <= k < |rows| ==> r[k] == id(rows[k])
  {
    if rows == [] then [] else Ids(rows[..|rows| - 1], id) + [id(rows[|rows| - 1])]
  }

  function TagRowId(r: TagRecord): string { r.id }

  function WayNodeRowId(r: WayNodeRecord): string { r.id }

  /** Rows of a prefix of the document still belong to the whole document. */
  lemma RowsOfPrefix(vs: seq<ElementValue>, n: int, kind: string, ids: seq<string>)
    requires 0 <= n <= |vs| && RowsOf(vs[..n], kind, ids)
    ensures RowsOf(vs, kind, ids)
  {
    forall k | 0 <= k < |ids| ensures IsIdOf(vs, kind, ids[k]) {
      IsIdOfPrefix(vs, n, kind, ids[k]);
    }
  }

  /** Rows that all carry one id given by an element of this kind. */
  lemma RowsOfOne(vs: seq<ElementValue>, i: int, kind: string, ids: seq<string>)
    requires 0 <= i < |vs| && vs[i].kind == kind
    requires ids != [] ==> "id" in vs[i].attrs
    requires forall k :: 0 <= k < |ids| ==> ids[k] == vs[i].attrs["id"]
    ensures RowsOf(vs, kind, ids)
  {
    forall k | 0 <= k < |ids| ensures IsIdOf(vs, kind, ids[k]) {
      assert "id" in vs[i].attrs && vs[i].attrs["id"] == ids[k];
    }
  }

  lemma RowsOfConcat(vs: seq<ElementValue>, kind: string, a: seq<string>, b: seq<string>)
    requires RowsOf(vs, kind, a) && RowsOf(vs, kind, b)
    ensures RowsOf(vs, kind, a + b)
  {
    forall k | 0 <= k < |a + b| ensures IsIdOf(vs, kind, (a + b)[k]) {
      if k >= |a| {
        assert (a + b)[k] == b[k - |a|];
      }
    }
  }

  lemma IdsConcat<R>(a: seq<R>, b: seq<R>, id: R -> string)
    ensures Ids(a + b, id) == Ids(a, id) + Ids(b, id)
  {
  }

  /** Every node tag row carries the id of a node, every way tag and way node row the id of a way. */
  lemma {:induction false} FeedIds(cfg: CheckCorrect.Config, vs: seq<ElementValue>)
    requires AllShapeable(vs)
    ensures var t := Feed(cfg, NoRows, vs);
            RowsOf(vs, "node", Ids(t.nodeTags, TagRowId))
            && RowsOf(vs, "way", Ids(t.wayTags, TagRowId))
            && RowsOf(vs, "way", Ids(t.wayNodes, WayNodeRowId))
    decreases |vs|
  {
    if vs != [] {
      var n := |vs| - 1;
      var init := vs[..n];
      var v := vs[n];
      FeedIds(cfg, init);
      ShapeOfSpec(cfg, v);
      var t0 := Feed(cfg, NoRows, init);
      var t := Feed(cfg, NoRows, vs);
      RowsOfPrefix(vs, n, "node", Ids(t0.nodeTags, TagRowId));
      RowsOfPrefix(vs, n, "way", Ids(t0.wayTags, TagRowId));
      RowsOfPrefix(vs, n, "way", Ids(t0.wayNodes, WayNodeRowId));
      if v.kind == "node" {
        var r := ShapeOf(cfg, v).value;
        IdsConcat(t0.nodeTags, r.nodeTags, TagRowId);
        RowsOfOne(vs, n, "node", Ids(r.nodeTags, TagRowId));
        RowsOfConcat(vs, "node", Ids(t0.nodeTags, TagRowId), Ids(r.nodeTags, TagRowId));
      } else if v.kind == "way" {
        var r := ShapeOf(cfg, v).value;
        IdsConcat(t0.wayTags, r.wayTags, TagRowId);
        IdsConcat(t0.wayNodes, r.wayNodes, WayNodeRowId);
        RowsOfOne(vs, n, "way", Ids(r.wayTags, TagRowId));
        RowsOfOne(vs, n, "way", Ids(r.wayNodes, WayNodeRowId));
        RowsOfConcat(vs, "way", Ids(t0.wayTags, TagRowId), Ids(r.wayTags, TagRowId));
        RowsOfConcat(vs, "way", Ids(t0.wayNodes, WayNodeRowId), Ids(r.wayNodes, WayNodeRowId));
      }
    }
  }

  /** Shaping one element of the document and handing its rows to the writers, unless it raises `KeyError`. */
  method ProcessElement(cfg: CheckCorrect.Config, es: seq<Element>, n: int, tables: Tables)
    returns (out: Tables, keyError: bool)
    requires 0 <= n < |es|
    requires DisjointTags(es)
    modifies set t | t in es[n].tags
    ensures keyError <==> !Shapeable(old(Value(es[n])))
    ensures !keyError ==> Shapeable(old(Value(es[n]))) && out == Route(tables, ShapeOf(cfg, old(Value(es[n]))))
    ensures Snapshots(es[n].tags) == ShapedTags(cfg, old(Value(es[n])))
    ensures forall i :: 0 <= i < |es| && i != n ==> Snapshots(es[i].tags) == old(Snapshots(es[i].tags))
  {
    var e := es[n];
    DistinctTagsSpec(e.tags);
    var el;
    el, keyError := ShapeElement(cfg, e);
    forall i | 0 <= i < |es| && i != n
      ensures Snapshots(es[i].tags) == old(Snapshots(es[i].tags))
    {
      forall k | 0 <= k < |es[i].tags|
        ensures es[i].tags[k].Snapshot() == old(es[i].tags[k].Snapshot())
      {
        assert es[i].tags[k] !in set t | t in e.tags;
      }
    }
    out := tables;
    if !keyError && el.Some? {
      match el.value
      case NodeShape(node, nodeTags) =>
        out := out.(nodes := out.nodes + [node], nodeTags := out.nodeTags + nodeTags);
      case WayShape(way, wayNodes, wayTags) =>
        out := out.(ways := out.ways + [way], wayNodes := out.wayNodes + wayNodes, wayTags := out.wayTags + wayTags);
    }
  }

  /** `process_map` has written the rows of the first `n` elements, none of which raised `KeyError`. */
  ghost predicate Written(cfg: CheckCorrect.Config, vs: seq<ElementValue>, n: int, tables: Tables)
  {
    0 <= n <= ShapeablePrefix(vs) && AllShapeable(vs[..n]) && tables == Feed(cfg, NoRows, vs[..n])
  }

  /**
   * One more element handed to `process_map`: its rows follow, or it is the
   * first one to raise `KeyError`, and the run ends there.
   */
  lemma WrittenStep(cfg: CheckCorrect.Config, vs: seq<ElementValue>, n: int, tables: Tables, out: Tables, keyError: bool)
    requires Written(cfg, vs, n, tables) && n < |vs|
    requires keyError <==> !Shapeable(vs[n])
    requires !keyError ==> Shapeable(vs[n]) && out == Route(tables, ShapeOf(cfg, vs[n]))
    ensures !keyError ==> Written(cfg, vs, n + 1, out)
    ensures keyError ==> n == ShapeablePrefix(vs) && !AllShapeable(vs)
  {
    if !keyError {
      var next := vs[..n + 1];
      assert next[..n] == vs[..n] && next[n] == vs[n];
      assert AllShapeable(next) by {
        forall i | 0 <= i < |next| ensures Shapeable(next[i]) {
          if i < n {
            assert next[i] == vs[..n][i];
          }
        }
      }
    }
  }

  /**
   * `process_map`, given the parsed nodes and ways in document order: the
   * rows of the five tables, written until the first element that raises
   * `KeyError`, which ends the run.
   */
  method ProcessMap(cfg: CheckCorrect.Config, es: seq<Element>) returns (tables: Tables, keyError: bool)
    requires DisjointTags(es)
    modifies TagFootprint(es)
    ensures keyError <==> !AllShapeable(old(Values(es)))
    ensures tables == Feed(cfg, NoRows, old(Values(es))[..ShapeablePrefix(old(Values(es)))])
  {
    ghost var vs := Values(es);
    tables := NoRows;
    keyError := false;
    var n := 0;
    assert vs[..0] == [];
    while n < |es|
      invariant Written(cfg, vs, n, tables)
      invariant forall i :: n <= i < |es| ==> Snapshots(es[i].tags) == vs[i].tags
    {
      assert Value(es[n]) == vs[n];
      var out;
      out, keyError := ProcessElement(cfg, es, n, tables);
      WrittenStep(cfg, vs, n, tables, out, keyError);
      if keyError {
        break;
      }
      tables := out;
      n := n + 1;
    }
  }
}
