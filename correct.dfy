/**
 * The tag corrector of `check_correct.py`. Each rule pairs a test on the
 * tag's key (and value) with a corrector that rewrites the tag in place:
 * a city-name or street-name substitution table, the fixed spelling of
 * Munich, the country code `DE`, and phone harmonisation, which renames the
 * key of a number it cannot read to `phone_bad`. Nodes run five rules in
 * order, ways three.
 *
 * The tables the module keeps in globals are an immutable `Config` here,
 * built from the lines of the three mapping files.
 */
module CheckCorrect {
  import opened Wrappers
  import opened Text
  import opened Osm
  import PhoneNumbers

  const CityTag: string := "addr:city"
  const StreetTag: string := "addr:street"
  const CountryTag: string := "addr:country"
  const PhoneTag: string := "phone"
  const PhoneBadTag: string := "phone_bad"
  const CountryDe: string := "DE"

  /**
   * The spelling written for Munich: the UTF-8 bytes of "München" read as
   * Latin-1 and encoded once more, which decodes to these eight characters.
   */
  const GoodMunich: string := "M\U{00C3}\U{00BC}nchen"

  /** `MUNICH_NAMES`, `CITY_DICT` and `STREET_DICT` once `init_values` has filled them. */
  datatype Config = Config(munichNames: seq<string>, cityDict: map<string, string>, streetDict: map<string, string>)

  // ---------------------------------------------------------------------
  // Checks
  // ---------------------------------------------------------------------

  /** `is_munich_name`: a city tag whose value is one of the Munich variants. */
  predicate IsMunichName(cfg: Config, t: Tag)
  {
    t.key == CityTag && t.value in cfg.munichNames
  }

  /** `is_not_germany`: a country tag whose value is not `DE`. */
  predicate IsNotGermany(t: Tag)
  {
    t.key == CountryTag && t.value != CountryDe
  }

  /** `is_city`. */
  predicate IsCity(t: Tag)
  {
    t.key == CityTag
  }

  /** `is_street_name`. */
  predicate IsStreetName(t: Tag)
  {
    t.key == StreetTag
  }

  /** `is_phone_no`. */
  predicate IsPhoneNo(t: Tag)
  {
    t.key == PhoneTag
  }

  // ---------------------------------------------------------------------
  // Corrections, as functions of the tag before and after
  // ---------------------------------------------------------------------

  /** The test and corrector pairs `correct_node` and `correct_way` hand to `correct_tag`. */
  datatype Rule = CityRule | MunichRule | CountryRule | StreetRule | PhoneRule

  /** A value found in the table is replaced by its entry; the key stays. */
  function Substituted(table: map<string, string>, t: Tag): Tag
  {
    if t.value in table then Tag(t.key, table[t.value]) else t
  }

  /** `correct_phone_no`: the harmonised number, or the raw one under the key `phone_bad`. */
  function PhoneFixed(t: Tag): Tag
  {
    match PhoneNumbers.CleanPhoneNo(t.value)
    case Some(clean) => Tag(t.key, clean)
    case None => Tag(PhoneBadTag, t.value)
  }

  predicate Test(cfg: Config, r: Rule, t: Tag)
  {
    match r
    case CityRule => IsCity(t)
    case MunichRule => IsMunichName(cfg, t)
    case CountryRule => IsNotGermany(t)
    case StreetRule => IsStreetName(t)
    case PhoneRule => IsPhoneNo(t)
  }

  function Fix(cfg: Config, r: Rule, t: Tag): Tag
  {
    match r
    case CityRule => Substituted(cfg.cityDict, t)
    case MunichRule => Tag(t.key, GoodMunich)
    case CountryRule => Tag(t.key, CountryDe)
    case StreetRule => Substituted(cfg.streetDict, t)
    case PhoneRule => PhoneFixed(t)
  }

  /** `correct_tag`. */
  function Apply(cfg: Config, r: Rule, t: Tag): Tag
  {
    if Test(cfg, r, t) then Fix(cfg, r, t) else t
  }

  /** The rules applied one after the other, first rule first. */
  function ApplyAll(cfg: Config, rules: seq<Rule>, t: Tag): Tag
    decreases |rules|
  {
    if rules == [] then t else ApplyAll(cfg, rules[1..], Apply(cfg, rules[0], t))
  }

  const NodeRules: seq<Rule> := [CityRule, MunichRule, CountryRule, StreetRule, PhoneRule]
  const WayRules: seq<Rule> := [CityRule, StreetRule, PhoneRule]

  /** What `correct_node` makes of a tag. */
  function NodeCorrected(cfg: Config, t: Tag): Tag
  {
    ApplyAll(cfg, NodeRules, t)
  }

  /** What `correct_way` makes of a tag. */
  function WayCorrected(cfg: Config, t: Tag): Tag
  {
    ApplyAll(cfg, WayRules, t)
  }

  // ---------------------------------------------------------------------
  // Correctors on the tag object
  // ---------------------------------------------------------------------

  /** `correct_munich_name`. */
  method CorrectMunichName(tag: TagNode)
    modifies tag
    ensures tag.key == old(tag.key) && tag.value == GoodMunich
  {
    tag.value := GoodMunich;
  }

  /** `correct_country`. */
  method CorrectCountry(tag: TagNode)
    modifies tag
    ensures tag.key == old(tag.key) && tag.value == CountryDe
  {
    tag.value := CountryDe;
  }

  /** `correct_city_names` and `correct_street_name`: the lookup in one substitution table. */
  method CorrectByTable(table: map<string, string>, tag: TagNode)
    modifies tag
    ensures tag.key == old(tag.key)
    ensures old(tag.value) in table ==> tag.value == table[old(tag.value)]
    ensures old(tag.value) !in table ==> tag.value == old(tag.value)
  {
    var original := tag.value;
    if original in table {
      tag.value := table[original];
    }
  }

  /** `correct_phone_no`. */
  method CorrectPhoneNo(tag: TagNode)
    modifies tag
    ensures PhoneNumbers.CleanPhoneNo(old(tag.value)).Some? ==>
              tag.key == old(tag.key) && tag.value == PhoneNumbers.CleanPhoneNo(old(tag.value)).value
    ensures PhoneNumbers.CleanPhoneNo(old(tag.value)).None? ==>
              tag.key == PhoneBadTag && tag.value == old(tag.value)
  {
    var raw := tag.value;
    var clean := PhoneNumbers.CleanPhoneNo(raw);
    if clean.Some? {
      tag.value := clean.value;
    } else {
      tag.key := PhoneBadTag;
      tag.value := raw;
    }
  }

  /** `correct_tag`: the corrector runs only when the test holds. */
  method CorrectTag(cfg: Config, tag: TagNode, r: Rule)
    modifies tag
    ensures Test(cfg, r, old(tag.Snapshot())) ==> tag.Snapshot() == Fix(cfg, r, old(tag.Snapshot()))
    ensures !Test(cfg, r, old(tag.Snapshot())) ==> tag.Snapshot() == old(tag.Snapshot())
  {
    if Test(cfg, r, tag.Snapshot()) {
      match r
      case CityRule => CorrectByTable(cfg.cityDict, tag);
      case MunichRule => CorrectMunichName(tag);
      case CountryRule => CorrectCountry(tag);
      case StreetRule => CorrectByTable(cfg.streetDict, tag);
      case PhoneRule => CorrectPhoneNo(tag);
    }
  }

  /** `correct_node`. */
  method CorrectNode(cfg: Config, tag: TagNode)
    modifies tag
    ensures tag.Snapshot() == NodeCorrected(cfg, old(tag.Snapshot()))
  {
    ghost var t0 := tag.Snapshot();
    CorrectTag(cfg, tag, CityRule);
    ghost var t1 := tag.Snapshot();
    CorrectTag(cfg, tag, MunichRule);
    ghost var t2 := tag.Snapshot();
    CorrectTag(cfg, tag, CountryRule);
    ghost var t3 := tag.Snapshot();
    CorrectTag(cfg, tag, StreetRule);
    ghost var t4 := tag.Snapshot();
    CorrectTag(cfg, tag, PhoneRule);
    NodeSteps(cfg, t0);
    assert t1 == Apply(cfg, CityRule, t0);
    assert t2 == Apply(cfg, MunichRule, t1);
    assert t3 == Apply(cfg, CountryRule, t2);
    assert t4 == Apply(cfg, StreetRule, t3);
  }

  /** `correct_way`. */
  method CorrectWay(cfg: Config, tag: TagNode)
    modifies tag
    ensures tag.Snapshot() == WayCorrected(cfg, old(tag.Snapshot()))
  {
    ghost var t0 := tag.Snapshot();
    CorrectTag(cfg, tag, CityRule);
    ghost var t1 := tag.Snapshot();
    CorrectTag(cfg, tag, StreetRule);
    ghost var t2 := tag.Snapshot();
    CorrectTag(cfg, tag, PhoneRule);
    WaySteps(cfg, t0);
    assert t1 == Apply(cfg, CityRule, t0);
    assert t2 == Apply(cfg, StreetRule, t1);
  }

  lemma NodeSteps(cfg: Config, t: Tag)
    ensures NodeCorrected(cfg, t)
            == Apply(cfg, PhoneRule, Apply(cfg, StreetRule, Apply(cfg, CountryRule,
                 Apply(cfg, MunichRule, Apply(cfg, CityRule, t)))))
  {
    var rs := NodeRules;
    assert rs[1..][1..][1..][1..][1..] == [];
  }

  lemma WaySteps(cfg: Config, t: Tag)
    ensures WayCorrected(cfg, t) == Apply(cfg, PhoneRule, Apply(cfg, StreetRule, Apply(cfg, CityRule, t)))
  {
    var rs := WayRules;
    assert rs[1..][1..][1..] == [];
  }

  // ---------------------------------------------------------------------
  // What the rule chains promise
  // ---------------------------------------------------------------------

  /**
   * The only key any chain of rules changes is `phone`, into `phone_bad`;
   * every other rule writes the value alone.
   */
  lemma {:induction false} OnlyPhoneKeyChanges(cfg: Config, rules: seq<Rule>, t: Tag)
    ensures var r := ApplyAll(cfg, rules, t);
            r.key == t.key || (t.key == PhoneTag && r.key == PhoneBadTag)
    decreases |rules|
  {
    if rules != [] {
      var t1 := Apply(cfg, rules[0], t);
      OnlyPhoneKeyChanges(cfg, rules[1..], t1);
    }
  }

  /** A tag whose key no rule tests for comes out of any chain unchanged. */
  lemma {:induction false} OtherKeysUntouched(cfg: Config, rules: seq<Rule>, t: Tag)
    requires t.key != CityTag && t.key != CountryTag && t.key != StreetTag && t.key != PhoneTag
    ensures ApplyAll(cfg, rules, t) == t
    decreases |rules|
  {
    if rules != [] {
      assert Apply(cfg, rules[0], t) == t;
      OtherKeysUntouched(cfg, rules[1..], t);
    }
  }

  /** The value a city tag has after the city table. */
  function CityValue(cfg: Config, v: string): string
  {
    if v in cfg.cityDict then cfg.cityDict[v] else v
  }

  /**
   * What the rules do, key by key, to a node's tag (`node` true) or a way's:
   * city tags get the city table and, on nodes, the Munich spelling decided
   * on the substituted value; country tags on nodes become `DE`; street
   * tags get the street table; phone tags are harmonised or quarantined;
   * any other tag is left as it is.
   */
  function Outcome(cfg: Config, node: bool, t: Tag): Tag
  {
    if t.key == CityTag then
      var v := CityValue(cfg, t.value);
      Tag(CityTag, if node && v in cfg.munichNames then GoodMunich else v)
    else if t.key == CountryTag then
      if node then Tag(CountryTag, CountryDe) else t
    else if t.key == StreetTag then Substituted(cfg.streetDict, t)
    else if t.key == PhoneTag then PhoneFixed(t)
    else t
  }

  /** `correct_node` and `correct_way` do, rule after rule, exactly what `Outcome` says. */
  lemma ChainOutcome(cfg: Config, t: Tag)
    ensures NodeCorrected(cfg, t) == Outcome(cfg, true, t)
    ensures WayCorrected(cfg, t) == Outcome(cfg, false, t)
  {
    NodeSteps(cfg, t);
    WaySteps(cfg, t);
  }

  /**
   * A phone tag ends up holding the harmonised number under its own key, or
   * the raw number under `phone_bad`: the value is never dropped.
   */
  lemma PhoneChain(cfg: Config, t: Tag)
    requires t.key == PhoneTag
    ensures NodeCorrected(cfg, t) == WayCorrected(cfg, t)
    ensures PhoneNumbers.CleanPhoneNo(t.value).Some? ==>
              NodeCorrected(cfg, t) == Tag(PhoneTag, PhoneNumbers.CleanPhoneNo(t.value).value)
    ensures PhoneNumbers.CleanPhoneNo(t.value).None? ==> NodeCorrected(cfg, t) == Tag(PhoneBadTag, t.value)
  {
    ChainOutcome(cfg, t);
  }

  /** Correcting a corrected country or phone tag again changes nothing. */
  lemma CountryPhoneIdempotent(cfg: Config, t: Tag)
    requires t.key == CountryTag || t.key == PhoneTag
    ensures NodeCorrected(cfg, NodeCorrected(cfg, t)) == NodeCorrected(cfg, t)
    ensures WayCorrected(cfg, WayCorrected(cfg, t)) == WayCorrected(cfg, t)
  {
    if t.key == CountryTag {
      ChainOutcome(cfg, t);
      ChainOutcome(cfg, NodeCorrected(cfg, t));
      ChainOutcome(cfg, WayCorrected(cfg, t));
    } else {
      PhoneChain(cfg, t);
      var r := NodeCorrected(cfg, t);
      match PhoneNumbers.CleanPhoneNo(t.value)
      case Some(clean) =>
        PhoneNumbers.CleanIdempotent(t.value);
        PhoneChain(cfg, r);
      case None =>
        OtherKeysUntouched(cfg, NodeRules, r);
        OtherKeysUntouched(cfg, WayRules, r);
    }
  }

  /**
   * Correcting a corrected street tag again changes nothing exactly when the
   * street table does not send the tag's value on to another entry that
   * changes it.
   */
  lemma StreetIdempotent(cfg: Config, t: Tag)
    requires t.key == StreetTag
    ensures var d := cfg.streetDict;
            NodeCorrected(cfg, NodeCorrected(cfg, t)) == NodeCorrected(cfg, t)
            <==> (t.value in d ==> d[t.value] !in d || d[d[t.value]] == d[t.value])
    ensures var d := cfg.streetDict;
            WayCorrected(cfg, WayCorrected(cfg, t)) == WayCorrected(cfg, t)
            <==> (t.value in d ==> d[t.value] !in d || d[d[t.value]] == d[t.value])
  {
    ChainOutcome(cfg, t);
    ChainOutcome(cfg, NodeCorrected(cfg, t));
  }

  /**
   * Correcting a corrected city tag of a way again changes nothing exactly
   * when the city table does not send its value on to another entry that
   * changes it; on a node it changes nothing when the table's entries are
   * not themselves keys and the Munich spelling is not a key either.
   */
  lemma CityIdempotent(cfg: Config, t: Tag)
    requires t.key == CityTag
    ensures var d := cfg.cityDict;
            WayCorrected(cfg, WayCorrected(cfg, t)) == WayCorrected(cfg, t)
            <==> (t.value in d ==> d[t.value] !in d || d[d[t.value]] == d[t.value])
    ensures (t.value in cfg.cityDict ==> cfg.cityDict[t.value] !in cfg.cityDict) && GoodMunich !in cfg.cityDict ==>
              NodeCorrected(cfg, NodeCorrected(cfg, t)) == NodeCorrected(cfg, t)
  {
    ChainOutcome(cfg, t);
    ChainOutcome(cfg, NodeCorrected(cfg, t));
    ChainOutcome(cfg, WayCorrected(cfg, t));
  }

  /** Two entries in a chain: the second correction changes the tag once more. */
  lemma TableChainExample(cfg: Config)
    requires cfg.cityDict == map["a" := "b", "b" := "c"]
    ensures WayCorrected(cfg, Tag(CityTag, "a")) == Tag(CityTag, "b")
    ensures WayCorrected(cfg, WayCorrected(cfg, Tag(CityTag, "a"))) == Tag(CityTag, "c")
  {
    ChainOutcome(cfg, Tag(CityTag, "a"));
    ChainOutcome(cfg, Tag(CityTag, "b"));
  }

  /**
   * With the table entry `"München "` to `"München"`, the city corrector
   * turns `"München "` into `"München"`, and a second run changes nothing,
   * for the city corrector alone as for the whole way and node corrections.
   */
  lemma MuenchenExample(cfg: Config)
    requires cfg.cityDict == map["M\U{00FC}nchen " := "M\U{00FC}nchen"]
    ensures var t := Tag(CityTag, "M\U{00FC}nchen ");
            Apply(cfg, CityRule, t) == Tag(CityTag, "M\U{00FC}nchen")
            && Apply(cfg, CityRule, Apply(cfg, CityRule, t)) == Apply(cfg, CityRule, t)
    ensures var t := Tag(CityTag, "M\U{00FC}nchen ");
            WayCorrected(cfg, t) == Tag(CityTag, "M\U{00FC}nchen")
            && WayCorrected(cfg, WayCorrected(cfg, t)) == WayCorrected(cfg, t)
    ensures var t := Tag(CityTag, "M\U{00FC}nchen ");
            NodeCorrected(cfg, t)
            == Tag(CityTag, if "M\U{00FC}nchen" in cfg.munichNames then GoodMunich else "M\U{00FC}nchen")
            && NodeCorrected(cfg, NodeCorrected(cfg, t)) == NodeCorrected(cfg, t)
  {
    var t := Tag(CityTag, "M\U{00FC}nchen ");
    assert "M\U{00FC}nchen" != "M\U{00FC}nchen ";
    assert GoodMunich != "M\U{00FC}nchen ";
    CityIdempotent(cfg, t);
    ChainOutcome(cfg, t);
  }

  // ---------------------------------------------------------------------
  // The mapping files
  // ---------------------------------------------------------------------

  /** One line's contribution to a substitution table. */
  datatype Entry = Entry(key: string, value: string)

  /** A line with a colon maps its first `:`-field to its second; other lines give nothing. */
  function LineEntry(line: string): Option<Entry>
  {
    var fields := Split(line, {':'});
    if |fields| > 1 then Some(Entry(fields[0], fields[1])) else None
  }

  /**
   * A line gives an entry exactly when it holds a colon. The key is what
   * precedes the first colon; the value is the longest colon-free stretch
   * after it, so without a second colon it runs to the end of the line,
   * newline and all.
   */
  lemma LineEntrySpec(line: string)
    ensures LineEntry(line).None? <==> ':' !in line
    ensures LineEntry(line).Some? ==>
              var i := IndexOf(line, ':').value;
              var rest := line[i + 1..];
              var e := LineEntry(line).value;
              e.key == line[..i] && ':' !in e.value
              && |e.value| <= |rest| && e.value == rest[..|e.value|]
              && (|e.value| == |rest| || rest[|e.value|] == ':')
  {
    SplitOne(line, ':');
    match IndexOf(line, ':')
    case None =>
    case Some(i) =>
      var rest := line[i + 1..];
      SplitOne(rest, ':');
      var v := Split(rest, {':'})[0];
      assert NoneIn(v, {':'});
      match IndexOf(rest, ':')
      case None =>
      case Some(j) =>
  }

  /** The table built from the lines: a later line with the same key overwrites an earlier one. */
  function MapOf(lines: seq<string>): map<string, string>
  {
    if lines == [] then map[]
    else
      var m := MapOf(lines[..|lines| - 1]);
      match LineEntry(lines[|lines| - 1])
      case None => m
      case Some(e) => m[e.key := e.value]
  }

  /** The keys of the table are the keys of the lines' entries. */
  lemma {:induction false} MapOfKeys(lines: seq<string>, k: string)
    ensures k in MapOf(lines) <==>
              exists i :: 0 <= i < |lines| && LineEntry(lines[i]).Some? && LineEntry(lines[i]).value.key == k
    decreases |lines|
  {
    if lines != [] {
      var init := lines[..|lines| - 1];
      MapOfKeys(init, k);
      if k in MapOf(lines) && k !in MapOf(init) {
        assert LineEntry(lines[|lines| - 1]).value.key == k;
      }
      if k in MapOf(init) {
        var i :| 0 <= i < |init| && LineEntry(init[i]).Some? && LineEntry(init[i]).value.key == k;
        assert lines[i] == init[i];
      }
      forall i | 0 <= i < |lines| - 1 ensures lines[i] == init[i] { }
    }
  }

  /** The value of a key is the one given by the last line that has that key. */
  lemma {:induction false} MapOfLastWins(lines: seq<string>, i: int)
    requires 0 <= i < |lines| && LineEntry(lines[i]).Some?
    requires forall j :: i < j < |lines| && LineEntry(lines[j]).Some? ==>
               LineEntry(lines[j]).value.key != LineEntry(lines[i]).value.key
    ensures var e := LineEntry(lines[i]).value;
            e.key in MapOf(lines) && MapOf(lines)[e.key] == e.value
    decreases |lines|
  {
    var init := lines[..|lines| - 1];
    if i < |lines| - 1 {
      forall j | i < j < |init| && LineEntry(init[j]).Some?
        ensures LineEntry(init[j]).value.key != LineEntry(init[i]).value.key
      {
        assert init[j] == lines[j];
      }
      assert init[i] == lines[i];
      MapOfLastWins(init, i);
    }
  }

  lemma MapOfStep(lines: seq<string>, n: int)
    requires 0 <= n < |lines|
    ensures MapOf(lines[..n + 1])
            == match LineEntry(lines[n])
               case None => MapOf(lines[..n])
               case Some(e) => MapOf(lines[..n])[e.key := e.value]
  {
    assert lines[..n + 1][..n] == lines[..n];
  }

  /** `get_city_dict` and `get_street_names_dict`, given the lines of the file. */
  method GetSubstitutionMap(lines: seq<string>) returns (table: map<string, string>)
    ensures table == MapOf(lines)
  {
    table := map[];
    var n := 0;
    while n < |lines|
      invariant 0 <= n <= |lines|
      invariant table == MapOf(lines[..n])
    {
      var fields := Split(lines[n], {':'});
      MapOfStep(lines, n);
      if |fields| > 1 {
        table := table[fields[0] := fields[1]];
      }
      n := n + 1;
    }
    assert lines[..n] == lines;
  }

  /** `get_munich_names`, given the lines of the file: each line stripped. */
  method GetMunichNames(lines: seq<string>) returns (munichNames: seq<string>)
    ensures munichNames == StripAll(lines)
  {
    munichNames := [];
    var n := 0;
    while n < |lines|
      invariant 0 <= n <= |lines|
      invariant munichNames == StripAll(lines[..n])
    {
      StripAllStep(lines, n);
      munichNames := munichNames + [Strip(lines[n])];
      n := n + 1;
    }
    assert lines[..n] == lines;
  }

  /** `init_values`, given the lines of the three files. */
  method InitValues(munichLines: seq<string>, cityLines: seq<string>, streetLines: seq<string>)
    returns (cfg: Config)
    ensures cfg == Config(StripAll(munichLines), MapOf(cityLines), MapOf(streetLines))
  {
    var munichNames := GetMunichNames(munichLines);
    var cityDict := GetSubstitutionMap(cityLines);
    var streetDict := GetSubstitutionMap(streetLines);
    cfg := Config(munichNames, cityDict, streetDict);
  }
}
