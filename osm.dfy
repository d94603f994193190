/**
 * The parsed OpenStreetMap input: `node`, `way` and other elements with
 * their attributes, their `tag` children (key `k`, value `v`) and, for
 * ways, the `ref` attributes of their `nd` children. A `tag` child is an
 * object, because the correctors rewrite its key and value in place.
 */
module Osm {

  /** The key and value of a `tag` child at one moment. */
  datatype Tag = Tag(key: string, value: string)

  /** A `tag` child element: `attrib['k']` and `attrib['v']`, both mutable. */
  class TagNode {
    var key: string
    var value: string

    constructor (k: string, v: string)
      ensures key == k && value == v
    {
      key := k;
      value := v;
    }

    /** The tag's current key and value. */
    function Snapshot(): Tag
      reads this
    {
      Tag(key, value)
    }
  }

  /**
   * An element in document order: its name (`element.tag`), its attribute
   * dictionary, its `tag` children and the `ref` of each `nd` child.
   */
  datatype Element = Element(kind: string, attrs: map<string, string>, tags: seq<TagNode>, nds: seq<string>)

  /** The current key and value of each tag, in order. */
  function Snapshots(tags: seq<TagNode>): (r: seq<Tag>)
    reads set t | t in tags
    ensures |r| == |tags|
    ensures forall k :: 0 <= k < |tags| ==> r[k] == tags[k].Snapshot()
  {
    if tags == [] then [] else Snapshots(tags[..|tags| - 1]) + [tags[|tags| - 1].Snapshot()]
  }

  /** An element with the key and value its tags have at one moment. */
  datatype ElementValue = ElementValue(kind: string, attrs: map<string, string>, tags: seq<Tag>, nds: seq<string>)

  /** The element with the current key and value of each of its tags. */
  function Value(e: Element): ElementValue
    reads set t | t in e.tags
  {
    ElementValue(e.kind, e.attrs, Snapshots(e.tags), e.nds)
  }

  /** The elements with the current key and value of each of their tags. */
  function Values(es: seq<Element>): (r: seq<ElementValue>)
    reads TagFootprint(es)
    ensures |r| == |es|
    ensures forall i :: 0 <= i < |es| ==> r[i] == Value(es[i])
  {
    if es == [] then []
    else
      assert TagFootprint(es[..|es| - 1]) <= TagFootprint(es);
      Values(es[..|es| - 1]) + [Value(es[|es| - 1])]
  }

  /** Every tag object of the elements, for reads and modifies frames. */
  ghost function TagFootprint(es: seq<Element>): set<TagNode>
  {
    set e, t | e in es && t in e.tags :: t
  }

  /** The tag objects an element sequence holds already exist: no object allocated later is among them. */
  lemma TagFootprintAllocated(es: seq<Element>)
    ensures forall t :: t in TagFootprint(es) ==> allocated(t)
  {
  }

  /** No tag object occurs twice among one element's children, as in an XML tree. */
  predicate DistinctTags(tags: seq<TagNode>)
  {
    tags == [] || (tags[|tags| - 1] !in tags[..|tags| - 1] && DistinctTags(tags[..|tags| - 1]))
  }

  /** Distinct tags are those whose positions all hold different objects. */
  lemma {:induction false} DistinctTagsSpec(tags: seq<TagNode>)
    ensures DistinctTags(tags) <==> forall i, j :: 0 <= i < j < |tags| ==> tags[i] != tags[j]
    decreases |tags|
  {
    if tags != [] {
      var n := |tags| - 1;
      var init := tags[..n];
      DistinctTagsSpec(init);
      if DistinctTags(tags) {
        forall i, j | 0 <= i < j < |tags| ensures tags[i] != tags[j] {
          assert tags[i] == init[i];
          if j < n {
            assert tags[j] == init[j];
          }
        }
      }
      if forall i, j :: 0 <= i < j < |tags| ==> tags[i] != tags[j] {
        assert forall i, j :: 0 <= i < j < |init| ==> init[i] != init[j] by {
          forall i, j | 0 <= i < j < |init| ensures init[i] != init[j] {
            assert init[i] == tags[i] && init[j] == tags[j];
          }
        }
        forall i | 0 <= i < n ensures init[i] != tags[n] {
          assert init[i] == tags[i];
        }
      }
    }
  }

  /** No tag object is shared, within an element or between two elements. */
  predicate DisjointTags(es: seq<Element>)
  {
    forall i, k, j, m ::
      0 <= i < |es| && 0 <= k < |es[i].tags| && 0 <= j < |es| && 0 <= m < |es[j].tags| && (i != j || k != m)
      ==> es[i].tags[k] != es[j].tags[m]
  }
}
