# OpenStreetMap data of Munich: auditing and cleaning, modelled in Dafny

The modelled pipeline reads an OpenStreetMap extract of Munich. It audits
the extract and cleans it into five tables. This project models the core
of that pipeline and proves properties of the model:

- **Phone numbers** (`phone.dfy`, module `PhoneNumbers`).
  - Two anchored regular expressions recognise a Munich landline number or
    a German mobile number.
  - Both are rewritten into a harmonised form: `+49 89 <digits>` or
    `+49 <carrier> <digits>`.
  - A number that matches neither pattern is rejected.
  - The auditor splits the lines of a file at `,` and `;`, strips each
    piece, and prints one line for each number that normalises.
- **Street names** (`street.dfy`, module `StreetNames`).
  - A street name is well formed when it ends with one of the German
    street-type words or starts with one of a few prepositions. The
    comparison ignores ASCII case.
  - The auditor collects the ill-formed `addr:street` values of nodes and
    ways. Each is recorded once, in first-seen order, in a caller-owned list
    (the class `StreetTypes`).
- **Tag correction** (`correct.dfy`, module `CheckCorrect`).
  - Rules are pairs of a test and a corrector that rewrite a `tag` child in
    place: the city-name and street-name substitution tables, the Munich
    spelling, the country code `DE`, and phone harmonisation.
  - Phone harmonisation moves a number it cannot read to the key
    `phone_bad`.
  - Nodes run five rules and ways three.
  - The substitution tables are built from `key:value` lines. The Munich
    variants are built from stripped lines.
- **Cleaning** (`cleaning.dfy`, module `Cleaning`).
  - `iter_tags` skips tag keys that hold a problem character, runs the
    corrector on the other tags in place, and splits each key at its first
    colon into a type and a key.
  - `shape_element` keeps the schema attributes, and numbers the `nd`
    references of a way from 0.
  - `process_map` routes the records of every node and way into the node,
    node-tag, way, way-node and way-tag tables.
- **Exploration** (`explore.dfy`, module `Explore`).
  - Tag values are grouped by key for the elements of one kind.
  - Distinct values are counted.
  - Keys or values are ranked by count, most frequent first: the ten most
    frequent keys, each with its twenty most frequent values
    (`Explore.Report`), and the keys with more than five values.

Around these sit a few support modules:

- `Osm` (`osm.dfy`): the parsed elements. A `tag` child is a class
  `TagNode`, because the correctors mutate its key and value.
- `Text` (`text.dfy`): the Python 2 string operations the pipeline
  relies on:
  - `str.strip`;
  - `re.split` on a character class;
  - `str.split` and `str.join` on one character;
  - removal of non-digits;
  - ASCII-only case folding.
- `Wrappers`: `Option`.

Where the source updates state, the model is imperative:

- the correctors and `iter_tags` mutate `TagNode` objects;
- `audit_street_name` appends to the fields of a `StreetTypes` object;
- the Python loops become `while` or `for` loops with invariants.

Each method is proved against a specification function. The algebraic
properties are lemmas about those functions.

Correcting a tag twice is not always the same as correcting it once. When
one entry of a substitution table maps to the key of another entry, the
second run applies that other entry as well (`CheckCorrect.TableChainExample`).
`CheckCorrect.StreetIdempotent` and `CheckCorrect.CityIdempotent` state when
a second run changes nothing.

The files are read as lines, and the XML file as a sequence of parsed
elements. Each method takes that input as a parameter. Nothing is opened,
printed or written.

## Model

| member | source | states |
|---|---|---|
| Text.IndexOf | src/cleaning.py:59-63 | The result is the first position of the character, or None exactly when it is absent. |
| Text.LeadingSpacesSpec | src/audit_phone_no.py:27 | The counted prefix is all whitespace, and the next character is not whitespace. |
| Text.TrailingSpacesSpec | src/audit_phone_no.py:27 | The counted suffix is all whitespace, and the character before it is not whitespace. |
| Text.StripSpec | src/audit_phone_no.py:27 | `strip()` returns a slice of the input that has no whitespace at either end, and everything cut away is whitespace. |
| Text.StripAll | src/check_correct.py:69-72 | Each piece is stripped in place and the length is kept. |
| Text.Separators | src/audit_phone_no.py:25 | There are no separators exactly when no character of the class occurs, and every entry belongs to the class. |
| Text.Split | src/audit_phone_no.py:25 | There is one more piece than separators, and no piece holds a separator. |
| Text.SplitRoundTrip | src/audit_phone_no.py:25 | Interleaving the pieces with the separators gives back the input: splitting loses nothing. |
| Text.JoinSplit | src/cleaning.py:59-62 | Joining the pieces of a one-character split with that character gives back the string. |
| Text.JoinIsInterleave | src/cleaning.py:62 | A join with one character is the interleaving with a run of that character. |
| Text.SplitOne | src/cleaning.py:59-63 | Without the character there is a single piece. Otherwise the first piece is what precedes its first occurrence, and the rest is the split of what follows it. |
| Text.SplitNone | src/audit_phone_no.py:25 | Text without a separator is a single piece. |
| Text.SplitAt | src/audit_phone_no.py:25 | At the first separator, the first piece ends and splitting continues after it. |
| Text.FlatMapSound | src/audit_phone_no.py:26-27 | Every output comes from some input element. When each element gives at most one output, there are at most as many outputs as inputs. |
| Text.FlatMapComplete | src/audit_phone_no.py:26-27 | Every output of every element appears in the concatenation. |
| Text.Digits | src/audit_phone_no.py:52 | `re.sub(r'[^\d]', '', ·)` yields only digits and is no longer than its input. |
| Text.DigitsAppend | src/audit_phone_no.py:52 | Removing non-digits distributes over concatenation. |
| Text.DigitsOfNoDigits | src/audit_phone_no.py:52 | Text without digits gives the empty string. |
| Text.DigitsOfAllDigits | src/audit_phone_no.py:52 | Text of digits is unchanged. |
| Text.Spaces | src/audit_phone_no.py:102 | `' ' * n` has n spaces, or none when n is not positive. |
| Osm.TagNode.constructor | src/cleaning.py:40-41 | A new tag child holds the given key and value. |
| Osm.Snapshots | src/cleaning.py:40 | The current key and value of each tag child, in order. |
| Osm.Values | src/cleaning.py:184-185 | The current value of each element, in document order. |
| Osm.DistinctTagsSpec | src/cleaning.py:40 | The tag children of an element are distinct, one last child after another, exactly when no two positions hold the same object. |
| PhoneNumbers.PrefixChars | src/audit_phone_no.py:35 | The prefix `^\(?\+?(00)?(49)?[ 0\-().]*` holds neither '8' nor '1', so the area code and the carrier start at the first '8' and the first '1'. |
| PhoneNumbers.AfterParenChars | src/audit_phone_no.py:35 | The part of the prefix after the optional parenthesis uses only prefix characters. |
| PhoneNumbers.SepRun | src/audit_phone_no.py:35 | Greedy `[ .\-/)]*` takes only separators and stops at a non-separator. |
| PhoneNumbers.BodyOfTail | src/audit_phone_no.py:35 | In a matched tail, `$` leaves only the final newline, which has no digits. |
| PhoneNumbers.TailComplete | src/audit_phone_no.py:35 | Whenever the tail `[ .\-/)]*([)/0-9\-. ]+$)` matches, the matcher accepts it, and the captured group has all the tail's digits. |
| PhoneNumbers.TailBody | src/audit_phone_no.py:35 | A matched tail without its newline is nonempty, made of subscriber characters, and has all the digits. |
| PhoneNumbers.GroupDigits | src/audit_phone_no.py:35 | The group left after the greedy separators keeps every digit. |
| PhoneNumbers.TailSound | src/audit_phone_no.py:35 | The matcher accepts only tails that the pattern matches, and the group it returns is a matching split. |
| PhoneNumbers.LocalSound | src/audit_phone_no.py:31-36 | Whatever `get_local_phone_no` accepts matches the local pattern, and the result is the captured group. |
| PhoneNumbers.LocalAt | src/audit_phone_no.py:35 | A prefix, "89" and a matching tail form a local match with that tail's group. |
| PhoneNumbers.LocalComplete | src/audit_phone_no.py:31-36 | Every input matching the local pattern is accepted, with the digits after "89". |
| PhoneNumbers.MobileSound | src/audit_phone_no.py:38-44 | Whatever `get_mobile_phone_no` accepts matches the mobile pattern, with the carrier `1[567]\d` and the captured group. |
| PhoneNumbers.MobileStart | src/audit_phone_no.py:43 | The carrier of a mobile match starts at the first '1'. |
| PhoneNumbers.MobileComplete | src/audit_phone_no.py:38-44 | Every input matching the mobile pattern is accepted, with its carrier and the digits after it. |
| PhoneNumbers.ShapesExclusive | src/audit_phone_no.py:31-44 | No input matches both patterns. |
| PhoneNumbers.CleanLocal | src/audit_phone_no.py:82-88 | A local match normalises to "+49 89 " followed by the digits after "89". |
| PhoneNumbers.CleanMobile | src/audit_phone_no.py:82-91 | A mobile match normalises to "+49 ", the carrier, a space and the digits after the carrier. |
| PhoneNumbers.MobileNotLocal | src/audit_phone_no.py:85-89 | An input of mobile shape never takes the local branch. |
| PhoneNumbers.CleanNoneIff | src/audit_phone_no.py:68-93 | `get_clean_phone_no` returns None exactly when neither pattern matches. |
| PhoneNumbers.CleanShape | src/audit_phone_no.py:47-66 | Every result is "+49 89 " plus digits, or "+49 " plus a carrier, a space and digits. |
| PhoneNumbers.LocalOutputShape | src/audit_phone_no.py:47-55 | The harmonised local form is "+49 89 " followed by digits only. |
| PhoneNumbers.MobileOutputShape | src/audit_phone_no.py:57-66 | The harmonised mobile form is "+49 ", the carrier, a space and digits only. |
| PhoneNumbers.CountryCodePrefix | src/audit_phone_no.py:35 | "+49 " is a valid prefix of both patterns. |
| PhoneNumbers.SpaceDigitsTail | src/audit_phone_no.py:35 | A space followed by digits matches the tail, with those digits. |
| PhoneNumbers.HarmonizedLocalFixed | src/audit_phone_no.py:68-93 | A harmonised local number normalises to itself. |
| PhoneNumbers.HarmonizedMobileFixed | src/audit_phone_no.py:68-93 | A harmonised mobile number normalises to itself. |
| PhoneNumbers.OutputShapeFixed | src/audit_phone_no.py:68-93 | Both output shapes are fixed points. |
| PhoneNumbers.CleanIdempotent | src/audit_phone_no.py:68-93 | Normalising a normalised number changes nothing. |
| PhoneNumbers.AcceptedIsAscii | src/audit_phone_no.py:100-102 | Every accepted input is ASCII, so its byte length is its character count. |
| PhoneNumbers.LocalAscii | src/audit_phone_no.py:35 | Inputs of local shape are ASCII. |
| PhoneNumbers.MobileAscii | src/audit_phone_no.py:43 | Inputs of mobile shape are ASCII. |
| PhoneNumbers.TrunkLocal | src/audit_phone_no.py:68-88 | "089 " plus digits normalises to "+49 89 " plus those digits. |
| PhoneNumbers.TrunkMobile | src/audit_phone_no.py:68-91 | "0", a carrier, a space and digits normalise to "+49 ", the carrier, a space and the digits. |
| PhoneNumbers.LocalWithoutDigits | src/audit_phone_no.py:31-55 | "089" followed by separators only is accepted, with an empty subscriber number. |
| PhoneNumbers.ExampleWithoutDigits | src/audit_phone_no.py:31-55 | "089 -" normalises to "+49 89 ". |
| PhoneNumbers.RejectedWithoutEightOrOne | src/audit_phone_no.py:68-93 | Text with neither '8' nor '1' is rejected. |
| PhoneNumbers.ExampleRejected | src/audit_phone_no.py:68-93 | "not a phone" is rejected. |
| PhoneNumbers.NumbersOfClean | src/audit_phone_no.py:24-27 | Every collected number is stripped and holds neither ',' nor ';'. |
| PhoneNumbers.StripOfNoSeparator | src/audit_phone_no.py:27 | Stripping adds no separator. |
| PhoneNumbers.ReadPhoneNo | src/audit_phone_no.py:10-29 | The loop collects, line after line, every stripped piece between ',' and ';'. |
| PhoneNumbers.AuditOf | src/audit_phone_no.py:98-102 | At most one line per number. |
| PhoneNumbers.AuditLineLayout | src/audit_phone_no.py:102 | An audit line is the number padded with spaces to 24 columns (no padding past 24), then "-->", a tab and the normalised form. |
| PhoneNumbers.AuditLinesSound | src/audit_phone_no.py:95-102 | At most one line per number, and every line belongs to a number and its normalised form. |
| PhoneNumbers.AuditLinesComplete | src/audit_phone_no.py:95-102 | Every number that normalises has its line. |
| PhoneNumbers.Audit | src/audit_phone_no.py:95-102 | The printed lines are those of the numbers `read_phone_no` collects, in order. |
| StreetNames.Fold | src/audit_street_names.py:31-34 | ASCII case folding keeps the length and folds character by character. |
| StreetNames.StraAtRun | src/audit_street_names.py:31 | A `stra[sß]*` match up to the end satisfies the recursive test. |
| StreetNames.RunStraAt | src/audit_street_names.py:31 | The recursive test gives a match position. |
| StreetNames.StraAtSnoc | src/audit_street_names.py:31 | A `stra[sß]*` match extends over one more `[sß]`. |
| StreetNames.StraRunIff | src/audit_street_names.py:31 | The recursive test for `stra[sß]*$` holds exactly when a match position exists. |
| StreetNames.StrasseOfRun | src/audit_street_names.py:31 | The `stra[sß]+e` test gives a match position. |
| StreetNames.RunOfStrasse | src/audit_street_names.py:31 | A match position satisfies the `stra[sß]+e` test. |
| StreetNames.StrasseIff | src/audit_street_names.py:31 | The test for `stra[sß]+e$` holds exactly when the pattern matches up to the end. |
| StreetNames.StreetTypes.constructor | src/audit_street_names.py:54 | The list starts empty. |
| StreetNames.StreetTypes.AuditStreetName | src/audit_street_names.py:23-39 | The new list is the old one after auditing the name. |
| StreetNames.AuditedSpec | src/audit_street_names.py:35-39 | The old list stays a prefix, and the name is appended exactly when it is ill formed and absent. No duplicates appear. |
| StreetNames.AuditedTwice | src/audit_street_names.py:37-39 | Auditing a name twice is auditing it once. |
| StreetNames.AddAllNewAppend | src/audit_street_names.py:58-65 | Collecting two stretches of values is collecting one after the other. |
| StreetNames.AuditedAllAppend | src/audit_street_names.py:58-65 | Auditing two stretches is auditing one after the other. |
| StreetNames.AddAllNewSpec | src/audit_street_names.py:37-39 | The old entries come first, then exactly the rejected values that were absent, with no duplicates. |
| StreetNames.AuditedAllSpec | src/audit_street_names.py:36-39 | After auditing, the list has the old names and then exactly the ill-formed values that were absent, with no duplicates. |
| StreetNames.OrderedSnoc | src/audit_street_names.py:37-39 | The first-seen order survives one more value, and an absent value may follow. |
| StreetNames.AddAllNewOrder | src/audit_street_names.py:37-39 | The new entries appear in the order of their first occurrence. |
| StreetNames.AuditedAllOrder | src/audit_street_names.py:36-39 | Ill-formed names are listed in first-seen order. |
| StreetNames.WellFormedNeverAdded | src/audit_street_names.py:35-36 | A well-formed name never enters the list. |
| StreetNames.StreetValuesSpec | src/audit_street_names.py:58-65 | A value is audited exactly when it belongs to an `addr:street` tag of a node or a way. |
| StreetNames.AuditedAllStep | src/audit_street_names.py:58-65 | One more value is one more audit step. |
| StreetNames.AuditTags | src/audit_street_names.py:62-65 | The inner loop audits the element's `addr:street` values in order. |
| StreetNames.AuditedStep | src/audit_street_names.py:58-65 | One more element audits its street values. An element that is neither a node nor a way changes nothing. |
| StreetNames.AuditElement | src/audit_street_names.py:59-65 | One step of the outer loop audits the street values of a node or way, or nothing. |
| StreetNames.Audit | src/audit_street_names.py:48-67 | The returned list is the audit of every `addr:street` value of the nodes and ways, in document order. |
| StreetNames.EndsWithWordLast | src/audit_street_names.py:31-34 | Ending with a word fixes the last letter, up to ASCII case. |
| StreetNames.StartsWithWordFirst | src/audit_street_names.py:31-34 | Starting with a word fixes the first letter, up to ASCII case. |
| StreetNames.IllFormedByEnds | src/audit_street_names.py:31-36 | A name is ill formed if its last letter ends no street-type word, its first letter starts no preposition, and it does not end in a newline. |
| StreetNames.ExampleIllFormed | src/audit_street_names.py:31-39 | "XYZ123" and "Leopoldstr." are ill formed, and auditing "XYZ123" twice records it once. |
| StreetNames.ExampleStrasse | src/audit_street_names.py:31 | "Leopoldstraße" is well formed. |
| StreetNames.ExampleHof | src/audit_street_names.py:31-33 | "Hauptbahnhof" is well formed. |
| CheckCorrect.CorrectMunichName | src/check_correct.py:130-134 | The value becomes the Munich spelling and the key is kept. |
| CheckCorrect.CorrectCountry | src/check_correct.py:137-141 | The value becomes `DE` and the key is kept. |
| CheckCorrect.CorrectByTable | src/check_correct.py:146-170 | A value found in the table is replaced by its entry, any other is kept, and the key is always kept. |
| CheckCorrect.CorrectPhoneNo | src/check_correct.py:172-184 | A number that normalises is replaced by its harmonised form. Any other moves, unchanged, to the key `phone_bad`. |
| CheckCorrect.CorrectTag | src/check_correct.py:189-197 | The corrector runs exactly when the test holds. Otherwise the tag is unchanged. |
| CheckCorrect.CorrectNode | src/check_correct.py:199-206 | The tag ends up as the five node rules, applied in order, make it. |
| CheckCorrect.CorrectWay | src/check_correct.py:208-213 | The tag ends up as the three way rules, applied in order, make it. |
| CheckCorrect.NodeSteps | src/check_correct.py:202-206 | The node chain is city table, Munich, country, street, phone. |
| CheckCorrect.WaySteps | src/check_correct.py:211-213 | The way chain is city table, street, phone. |
| CheckCorrect.OnlyPhoneKeyChanges | src/check_correct.py:130-184 | The only key any rule chain changes is `phone`, which becomes `phone_bad`. |
| CheckCorrect.OtherKeysUntouched | src/check_correct.py:82-122 | A tag with a key no rule tests comes out unchanged. |
| CheckCorrect.ChainOutcome | src/check_correct.py:199-213 | Key by key, the node and way chains give the stated outcome: city table, then the Munich spelling on nodes; `DE` for a country on nodes; street table; phone harmonised or quarantined; any other tag unchanged. |
| CheckCorrect.PhoneChain | src/check_correct.py:172-184 | A phone tag is treated alike on nodes and ways: it holds the harmonised number, or the raw number under `phone_bad`. |
| CheckCorrect.CountryPhoneIdempotent | src/check_correct.py:137-184 | Correcting a corrected country or phone tag again changes nothing. |
| CheckCorrect.StreetIdempotent | src/check_correct.py:159-170 | Correcting a corrected street tag again changes nothing exactly when the table does not send its value on to an entry that changes it. |
| CheckCorrect.CityIdempotent | src/check_correct.py:146-154 | The same for city tags of ways. On nodes a second correction changes nothing when table entries are not keys and the Munich spelling is not a key. |
| CheckCorrect.TableChainExample | src/check_correct.py:146-154 | With entries `a` to `b` and `b` to `c`, a second correction turns `b` into `c`. |
| CheckCorrect.MuenchenExample | src/check_correct.py:146-154 | With the entry `"München "` to `"München"`, the city corrector and the way chain give `"München"` and a second run changes nothing. On nodes, a second run changes nothing too. |
| CheckCorrect.LineEntrySpec | src/check_correct.py:45-47 | A line gives an entry exactly when it holds a colon. The key precedes the first colon, and the value is the colon-free stretch after it, newline included. |
| CheckCorrect.MapOfKeys | src/check_correct.py:43-47 | The table's keys are exactly the keys of the lines' entries. |
| CheckCorrect.MapOfLastWins | src/check_correct.py:47 | A key's value comes from the last line with that key. |
| CheckCorrect.MapOfStep | src/check_correct.py:44-47 | One more line adds or overwrites its entry. |
| CheckCorrect.GetSubstitutionMap | src/check_correct.py:38-62 | The loop builds the table of the lines. |
| CheckCorrect.GetMunichNames | src/check_correct.py:66-73 | The list is every line, stripped, in order. |
| CheckCorrect.InitValues | src/check_correct.py:218-228 | The configuration holds the Munich names and both substitution tables built from their files. |
| Cleaning.SplitKeySpec | src/cleaning.py:55-63 | A key without a colon gets the type `regular`. Otherwise it is cut at the first colon, later colons stay in the key, and type, colon and key rebuild the original. |
| Cleaning.SplitKeyAt | src/cleaning.py:59-63 | At the first colon, the type precedes it and the key follows it. |
| Cleaning.Kept | src/cleaning.py:43-44 | No kept tag has a problem character, and none is added. |
| Cleaning.KeptSpec | src/cleaning.py:43-44 | A tag is kept exactly when its key has no problem character. |
| Cleaning.TagRecordsSpec | src/cleaning.py:39-70 | One row per kept tag, in order, each with the element id and the corrected key and value. |
| Cleaning.QuarantinedPhoneRecord | src/cleaning.py:46-70 | An unreadable phone number is written as a `regular` row under `phone_bad`, with its raw value. |
| Cleaning.TagRecordsStep | src/cleaning.py:40-70 | One more tag appends its row, or nothing when its key is a problem. |
| Cleaning.CorrectFor | src/cleaning.py:47-50 | A node's tag gets the node chain, a way's the way chain, any other tag stays unchanged. |
| Cleaning.AfterAll | src/cleaning.py:40-50 | Each tag gets its own state after `iter_tags`, and the length is kept. |
| Cleaning.AfterAllSpec | src/cleaning.py:43-50 | A tag with a problem key is left as it is, and every other tag is corrected for the element kind. |
| Cleaning.FirstKept | src/cleaning.py:40-44 | The first tag `iter_tags` does not skip: none exactly when every key is a problem, otherwise a kept tag with only problem keys before it. |
| Cleaning.FirstKeptFrom | src/cleaning.py:40-44 | The same search, started at a position with only problem keys before it. |
| Cleaning.ProblemsUntouched | src/cleaning.py:40-44 | When every key is a problem, no tag is kept and none changes. |
| Cleaning.IterTags | src/cleaning.py:39-70 | With an id, the element's rows are appended and the tags end as `AfterAll` says. Without one, `KeyError` comes exactly when some tag is kept; then only the first kept tag has been corrected and no row appended. |
| Cleaning.ProgressStep | src/cleaning.py:40-70 | One loop pass either keeps the loop state, one tag further on, or ends at the first kept tag in the `KeyError` state. |
| Cleaning.AfterAllStep | src/cleaning.py:40-50 | Handling one more tag changes that tag as `iter_tags` does and no other. |
| Cleaning.InterruptedAt | src/cleaning.py:40-70 | Stopping at the first kept tag after correcting it leaves the tags as `Interrupted` describes. |
| Cleaning.IterTag | src/cleaning.py:41-70 | One loop step: skip the tag, or correct it and then append its row, or raise `KeyError` for want of an id. No other tag changes. |
| Cleaning.IterTagsPass | src/cleaning.py:40-70 | One pass of the loop keeps its state one tag further on, or raises `KeyError` with the tags left as `Interrupted` says. |
| Cleaning.ProgressStart | src/cleaning.py:39-40 | Before the loop no tag is handled and no row appended. |
| Cleaning.ProgressDone | src/cleaning.py:40-70 | After the loop every tag is handled: with an id all rows are appended, without one every key was a problem. |
| Cleaning.AfterAllOtherKind | src/cleaning.py:47-50 | The tags of an element that is neither a node nor a way stay unchanged. |
| Cleaning.RestrictAttribs | src/cleaning.py:84-86 | The record holds exactly the schema fields among the attributes, with their values, in any iteration order. |
| Cleaning.WayNodesOf | src/cleaning.py:104-109 | One way-node row per `nd`, at position i with the i-th reference. |
| Cleaning.WayNodes | src/cleaning.py:104-109 | With an id, the `enumerate` loop builds those rows. Without one, `KeyError` comes exactly when there is an `nd`. |
| Cleaning.IdOf | src/cleaning.py:67 | The id is there exactly when the attribute is, with its value. |
| Cleaning.ShapeOfSpec | src/cleaning.py:72-112 | Only nodes and ways are shaped, each into its own kind of record, with the schema attributes, one row per kept tag and per `nd`, each carrying the element's id. |
| Cleaning.ShapedTagsSpec | src/cleaning.py:72-112 | Without `KeyError` the tags end as `iter_tags` leaves them. With it, only the first kept tag has been corrected. |
| Cleaning.ShapeElement | src/cleaning.py:72-112 | `KeyError` comes exactly for an element that needs an id it lacks. Otherwise the result is the shape of the element's original value. The tags end as `ShapedTags` says. |
| Cleaning.ShapeNode | src/cleaning.py:82-92 | The node branch gives the node shape or `KeyError`, and leaves the tags as `ShapedTags` says. |
| Cleaning.ShapeWay | src/cleaning.py:94-112 | The way branch gives the way shape or `KeyError`, from its tags or its first `nd`, and leaves the tags as `ShapedTags` says. |
| Cleaning.ShapeablePrefix | src/cleaning.py:184-186 | The number of elements before the first that raises `KeyError`: all elements before it shape, and the one at it does not. |
| Cleaning.ShapeableFrom | src/cleaning.py:184-186 | The same count, from a position that every element before it passes. |
| Cleaning.FeedAppend | src/cleaning.py:184-197 | Processing two stretches of a document is processing them one after the other. |
| Cleaning.OtherElementsIgnored | src/cleaning.py:186-197 | Elements that are neither nodes nor ways add no rows, wherever they stand. |
| Cleaning.FeedCounts | src/cleaning.py:188-197 | There is one node row per node and one way row per way. |
| Cleaning.FeedIds | src/cleaning.py:188-197 | Every node-tag row carries a node's id. Every way-tag and way-node row carries a way's id. |
| Cleaning.Ids | src/cleaning.py:65-70 | The id column holds each row's id, in order. |
| Cleaning.ProcessElement | src/cleaning.py:185-197 | One element's rows are routed unless it raises `KeyError`; its tags end as `ShapedTags` says, and no other element changes. |
| Cleaning.WrittenStep | src/cleaning.py:184-197 | One more element either adds its rows to those of the elements before it, or is the first to raise `KeyError`. |
| Cleaning.ProcessMap | src/cleaning.py:159-197 | `KeyError` comes exactly when some element raises it. The tables hold, in document order, the rows of the nodes and ways before the first such element, from their original values. |
| Explore.LookupAppend | src/explore.py:37 | One append adds one value under one key, and the key is then present. |
| Explore.AppendAllSpec | src/explore.py:36-37 | Each key gains exactly the values of its tags, in order. A key is present exactly when it has a value. |
| Explore.GroupedSpec | src/explore.py:31-37 | Each key holds the values of its tags on elements of the given kind, in document order. A key is present exactly when it has one. |
| Explore.OtherKindIgnored | src/explore.py:33 | Elements of another kind change no group. |
| Explore.ValuesForAppend | src/explore.py:31-37 | Grouping distributes over concatenation of documents. |
| Explore.Audit | src/explore.py:23-47 | The grouping loop gives exactly those groups. |
| Explore.MultiplicitiesStep | src/explore.py:55 | One more value bumps its own count by one and no other count. |
| Explore.TallyIsMultiplicities | src/explore.py:54-55 | The counts are the multiplicities. |
| Explore.GetUniqueValuesAndCount | src/explore.py:49-56 | The loop builds those counts. |
| Explore.TallyKeys | src/explore.py:49-56 | The keys are exactly the values, each counted as many times as it occurs. |
| Explore.CountsSum | src/explore.py:49-56 | The counts add up to the number of values. |
| Explore.UniqueAtMostCount | src/explore.py:49-56 | There are never more distinct values than values. |
| Explore.AuditTags | src/explore.py:108-118 | Each key's total count and distinct-value counts. |
| Explore.AuditTagsCounts | src/explore.py:113-127 | For every key, the unique count is at most the total count, and the distinct counts add up to it. |
| Explore.Insert | src/explore.py:68-70 | Insertion is a permutation of the list with the new entry. |
| Explore.SortByCount | src/explore.py:68-70 | Sorting is a permutation. |
| Explore.InsertRanked | src/explore.py:68-70 | Inserting into a ranked list keeps it ranked. |
| Explore.SortByCountRanked | src/explore.py:68-70 | The sorted list is in non-increasing order of count. |
| Explore.RankedPrefix | src/explore.py:68-70 | A prefix of a ranked list is ranked, and nothing after it counts more. |
| Explore.TakeSpec | src/explore.py:68-70 | `[:limit]` is a prefix of length min(limit, length), or everything. |
| Explore.TopByCountSpec | src/explore.py:58-75 | Exactly `limit` entries or all of them when fewer, each drawn from the given iteration order of the dictionary and in non-increasing count. Without a limit the result is a permutation of that order, with the same members. Nothing left out counts more than anything shown. |
| Explore.ReportedTagsSpec | src/explore.py:122-130 | At most ten keys, in non-increasing count, and no unreported key has more values than a reported one. |
| Explore.EntrySpec | src/explore.py:124-130 | What is printed for one key gives its number of values and of distinct values (never more), and at most twenty of its values, drawn from its value dictionary, most frequent first, with no value left out counted more often than one shown. |
| Explore.ReportOfAt | src/explore.py:122-130 | Entry `i` of the printing loop is what is printed for the `i`-th key. |
| Explore.ReportSpec | src/explore.py:122-130 | The report has one entry per reported key, at most ten, in ranking order, and each entry shows its key as `EntrySpec` describes. |
| Explore.FrequentSpec | src/explore.py:43 | Filtering keeps exactly the entries counted more than five times, and keeps the ranking. |
| Explore.FrequentTagsSpec | src/explore.py:39-45 | Exactly the keys with more than five values, in non-increasing count of values. |

## Left out

- File and console I/O (`open`, `print`, `sys.stderr`): every routine takes
  the lines of its file as a parameter and returns what it would print or
  write. `audit` in `audit_phone_no.py` returns its lines.
- XML parsing (`ET.iterparse`, `get_element`, `root.clear()`): the input is
  the sequence of parsed elements. Each element has its name, its attribute
  dictionary, its `tag` children and the `ref` value of each `nd` child.
- `validate_element` (schema validation with cerberus) and `UnicodeDictWriter`
  (CSV encoding) belong to foreign libraries. The five CSV files are the
  five row sequences of `Cleaning.Tables`.
- `to_str` and `to_unicode` are the identity on the model's strings. Every
  string is the sequence of the characters the bytes decode to.
- `GOOD_MUNICH` is held as the eight characters its bytes in the UTF-8
  source file decode to.
- `init_values` fills module globals. The model builds an immutable
  `Config` from the three files' lines and passes it to the correctors.
- `get_key_value_of_tag` is inlined: a `Tag` is the pair of key and value.
- `audit_unique_tags` reads user input in an endless loop. Only
  `print_tag_values_and_counts`, which it calls, is modelled
  (`Explore.ShownValues`).
- Explore.Report: a value whose printing raises `UnicodeEncodeError` is
  skipped by the source; console encoding is not modelled, so every chosen
  value is listed.
- `print_tag_types` is left out: it only prints, sorting by the value lists
  themselves.
- Python `re` semantics in general are not modelled. Only the fixed
  patterns are written out, with Python's `$` (also before a final newline)
  and the ASCII-only case folding of `re.IGNORECASE` on byte strings.
- `KeyError` is modelled as a `keyError` result. It arises only when a
  node or way without `id` has a tag that is kept, or a way without `id`
  has an `nd`; an element with neither is shaped with no rows. The
  traceback and the half-written CSV files are the state the model
  returns: the rows of the elements before, and the tags of the failing
  element up to and including its first kept tag corrected.
- Cleaning.IterTags: requires distinct tag objects (`DistinctTags`), and
  Cleaning.ProcessMap requires objects not shared between elements
  (`DisjointTags`), as in a parsed XML tree. Aliased tag objects are not
  modelled.
- Cleaning.ProcessMap: the final key and value of each tag object are not
  stated, only the rows the tables receive. ProcessElement states those one
  element at a time.
- Explore.SortByCount: ties keep their given order, as in Python's stable
  sort, but no contract states stability. The order in which a dictionary
  yields its keys is a parameter (`order`), since the language fixes none.
- Explore.Audit: the element kind is a parameter, as the source's default
  argument `'way'` is. The report it writes is `Explore.FrequentTags`.
- Explore.Audit: only the direct `tag` children of each element are
  walked. That is what `elem.iter('tag')` yields for `node` and `way`
  elements, whose `tag` elements are direct children. For the kind `tag`
  or `osm`, or any kind whose elements nest `tag` elements deeper, it also
  yields the element itself or deeper descendants; that is not modelled.
- CheckCorrect.GetSubstitutionMap: models both `get_city_dict` and
  `get_street_names_dict`, whose bodies are the same.
- The `print` lines that log each correction in `check_correct.py` are not
  modelled.
