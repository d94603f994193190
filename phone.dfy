/**
 * The phone-number normaliser of `audit_phone_no.py`.
 *
 * Two anchored patterns are tried in order:
 *   local   `^\(?\+?(00)?(49)?[ 0\-().]*89[ .\-/)]*([)/0-9\-. ]+$)`
 *   mobile  `^\(?\+?(00)?(49)?[ 0\-().]*(1[567]\d)[ .\-/)]*([)/0-9\-. ]+$)`
 * The patterns are written out below as predicates over an explicit
 * decomposition of the input (LocalSplit, MobileSplit): that is what it
 * means for the regular expression to match. The matcher that the model
 * runs (MatchLocal, MatchMobile) is a hand-written scan, and the lemmas
 * show that it accepts exactly the strings the patterns accept and
 * yields the same digits whichever way the pattern is matched.
 */
module PhoneNumbers {
  import opened Wrappers
  import opened Text

  // ---------------------------------------------------------------------
  // Character classes of the two patterns
  // ---------------------------------------------------------------------

  /** `[ 0\-().]`: what may stand between the country code and the area code or carrier. */
  predicate IsLeadChar(c: char)
  {
    c == ' ' || c == '0' || c == '-' || c == '(' || c == ')' || c == '.'
  }

  /** `[ .\-/)]`: separators after the area code or carrier. */
  predicate IsSepChar(c: char)
  {
    c == ' ' || c == '.' || c == '-' || c == '/' || c == ')'
  }

  /** `[)/0-9\-. ]`: the characters of the subscriber group. */
  predicate IsSubscriberChar(c: char)
  {
    c == ')' || c == '/' || IsDigit(c) || c == '-' || c == '.' || c == ' '
  }

  predicate AllLead(s: string)
  {
    forall k :: 0 <= k < |s| ==> IsLeadChar(s[k])
  }

  predicate AllSep(s: string)
  {
    forall k :: 0 <= k < |s| ==> IsSepChar(s[k])
  }

  predicate AllSubscriber(s: string)
  {
    forall k :: 0 <= k < |s| ==> IsSubscriberChar(s[k])
  }

  // ---------------------------------------------------------------------
  // The common prefix `\(?\+?(00)?(49)?[ 0\-().]*`, matched by all of p
  // ---------------------------------------------------------------------

  predicate IsPrefix(p: string)
  {
    AfterParen(p) || (|p| > 0 && p[0] == '(' && AfterParen(p[1..]))
  }

  /** `\+?(00)?(49)?[ 0\-().]*` */
  predicate AfterParen(p: string)
  {
    AfterPlus(p) || (|p| > 0 && p[0] == '+' && AfterPlus(p[1..]))
  }

  /** `(00)?(49)?[ 0\-().]*` */
  predicate AfterPlus(p: string)
  {
    AfterZeros(p) || (|p| >= 2 && p[..2] == "00" && AfterZeros(p[2..]))
  }

  /** `(49)?[ 0\-().]*` */
  predicate AfterZeros(p: string)
  {
    AllLead(p) || (|p| >= 2 && p[..2] == "49" && AllLead(p[2..]))
  }

  /** The characters a prefix can be made of. */
  predicate IsPrefixChar(c: char)
  {
    IsLeadChar(c) || c == '(' || c == '+' || c == '4' || c == '9'
  }

  predicate AllPrefixChars(p: string)
  {
    forall k :: 0 <= k < |p| ==> IsPrefixChar(p[k])
  }

  lemma AfterZerosChars(p: string)
    requires AfterZeros(p)
    ensures AllPrefixChars(p)
  {
    if !AllLead(p) {
      forall k | 0 <= k < |p| ensures IsPrefixChar(p[k]) {
        if k >= 2 {
          assert p[k] == p[2..][k - 2];
        } else {
          assert p[k] == p[..2][k];
        }
      }
    }
  }

  lemma AfterPlusChars(p: string)
    requires AfterPlus(p)
    ensures AllPrefixChars(p)
  {
    if AfterZeros(p) {
      AfterZerosChars(p);
    } else {
      AfterZerosChars(p[2..]);
      forall k | 0 <= k < |p| ensures IsPrefixChar(p[k]) {
        if k >= 2 {
          assert p[k] == p[2..][k - 2];
        } else {
          assert p[k] == p[..2][k];
        }
      }
    }
  }

  lemma AfterParenChars(p: string)
    requires AfterParen(p)
    ensures AllPrefixChars(p)
  {
    if AfterPlus(p) {
      AfterPlusChars(p);
    } else {
      AfterPlusChars(p[1..]);
      forall k | 1 <= k < |p| ensures IsPrefixChar(p[k]) {
        assert p[k] == p[1..][k - 1];
      }
    }
  }

  /**
   * A prefix holds neither '8' nor '1', so the area code "89" of a local
   * match starts at the first '8' of the input and the carrier of a mobile
   * match at its first '1'.
   */
  lemma PrefixChars(p: string)
    requires IsPrefix(p)
    ensures AllPrefixChars(p)
    ensures '8' !in p && '1' !in p
  {
    if AfterParen(p) {
      AfterParenChars(p);
    } else {
      AfterParenChars(p[1..]);
      forall k | 1 <= k < |p| ensures IsPrefixChar(p[k]) {
        assert p[k] == p[1..][k - 1];
      }
    }
  }

  // ---------------------------------------------------------------------
  // The common tail `[ .\-/)]*([)/0-9\-. ]+$)`
  // ---------------------------------------------------------------------

  /** Python's `$` holds at position e of t: at the end, or just before a final newline. */
  predicate EndAnchor(t: string, e: int)
  {
    e == |t| || (0 <= e && e == |t| - 1 && t[e] == '\n')
  }

  /** t matches the tail with separators t[..j] and subscriber group t[j..e]. */
  predicate TailSplit(t: string, j: int, e: int)
  {
    0 <= j < e <= |t| && EndAnchor(t, e) && AllSep(t[..j]) && AllSubscriber(t[j..e])
  }

  /** How many separator characters the greedy `[ .\-/)]*` takes from the start of t. */
  function SepRun(t: string): (n: nat)
    ensures n <= |t| && AllSep(t[..n])
    ensures n == |t| || !IsSepChar(t[n])
  {
    if t != [] && IsSepChar(t[0]) then
      var n := 1 + SepRun(t[1..]);
      assert forall k :: 1 <= k < n ==> t[..n][k] == t[1..][..n - 1][k - 1];
      n
    else 0
  }

  /**
   * The subscriber group Python's backtracking matcher captures from a tail:
   * the separators go to the greedy star, except that the group keeps at least
   * one character.
   */
  function MatchTail(t: string): Option<string>
  {
    var b := Body(t);
    if |b| > 0 && AllSubscriber(b) then
      var j := if SepRun(b) < |b| then SepRun(b) else |b| - 1;
      Some(b[j..])
    else None
  }

  lemma SepsHaveNoDigits(s: string)
    requires AllSep(s)
    ensures Digits(s) == ""
  {
    DigitsOfNoDigits(s);
  }

  /** When a tail matches, the text the group can end at is the text without the final newline. */
  lemma BodyOfTail(t: string, j: int, e: int)
    requires TailSplit(t, j, e)
    ensures Body(t) == t[..e]
    ensures Digits(t[e..]) == ""
  {
    if e == |t| {
      assert t[e - 1] == t[j..e][e - 1 - j];
      assert t[e..] == "";
    } else {
      assert t[e..] == "\n";
    }
  }

  lemma AllSubscriberConcat(a: string, b: string)
    requires AllSubscriber(a) && AllSubscriber(b)
    ensures AllSubscriber(a + b)
  {
    assert forall k :: |a| <= k < |a + b| ==> (a + b)[k] == b[k - |a|];
  }

  /** Dropping leading separators keeps the digits. */
  lemma DigitsAfterSeps(s: string, n: int)
    requires 0 <= n <= |s| && AllSep(s[..n])
    ensures Digits(s[n..]) == Digits(s)
  {
    assert s == s[..n] + s[n..];
    DigitsAppend(s[..n], s[n..]);
    SepsHaveNoDigits(s[..n]);
  }

  /** Whatever the regex does with a matched tail, the digits it captures are those of the tail. */
  lemma {:induction false} TailComplete(t: string, j: int, e: int)
    requires TailSplit(t, j, e)
    ensures MatchTail(t).Some?
    ensures Digits(MatchTail(t).value) == Digits(t)
    ensures Digits(t[j..e]) == Digits(t)
  {
    TailBody(t, j, e);
    var b := Body(t);
    GroupDigits(b);
    var m := SepRun(b);
    var n := if m < |b| then m else |b| - 1;
    assert MatchTail(t) == Some(b[n..]);
  }

  /** A matched tail without its final newline is all subscriber characters and has all its digits. */
  lemma TailBody(t: string, j: int, e: int)
    requires TailSplit(t, j, e)
    ensures |Body(t)| > 0 && AllSubscriber(Body(t))
    ensures Digits(Body(t)) == Digits(t) && Digits(t[j..e]) == Digits(t)
  {
    BodyOfTail(t, j, e);
    var b := Body(t);
    assert b == t[..j] + t[j..e];
    AllSubscriberConcat(t[..j], t[j..e]);
    assert b[..j] == t[..j] && b[j..] == t[j..e];
    DigitsAfterSeps(b, j);
    assert t == b + t[e..];
    DigitsAppend(b, t[e..]);
  }

  /** The group the matcher keeps, after the greedy separators, has all the digits of b. */
  lemma GroupDigits(b: string)
    requires |b| > 0
    ensures var m := SepRun(b);
            Digits(b[if m < |b| then m else |b| - 1..]) == Digits(b)
  {
    var m := SepRun(b);
    var n := if m < |b| then m else |b| - 1;
    assert AllSep(b[..n]) by {
      assert forall k :: 0 <= k < n ==> b[..n][k] == b[..m][k];
    }
    DigitsAfterSeps(b, n);
  }
  lemma TailSound(t: string)
    requires MatchTail(t).Some?
    ensures exists j, e :: TailSplit(t, j, e) && MatchTail(t).value == t[j..e]
  {
    var b := Body(t);
    var j := if SepRun(b) < |b| then SepRun(b) else |b| - 1;
    assert b == t[..|b|];
    assert AllSep(t[..j]) by {
      assert forall k :: 0 <= k < j ==> t[..j][k] == b[..SepRun(b)][k];
    }
    assert AllSubscriber(t[j..|b|]) by {
      assert forall k :: 0 <= k < |b| - j ==> t[j..|b|][k] == b[j + k];
    }
    assert TailSplit(t, j, |b|) && MatchTail(t).value == t[j..|b|];
  }

  // ---------------------------------------------------------------------
  // The two patterns
  // ---------------------------------------------------------------------

  /** `1[567]\d`, the mobile carrier prefix. */
  predicate IsCarrier(c: string)
  {
    |c| == 3 && c[0] == '1' && (c[1] == '5' || c[1] == '6' || c[1] == '7') && IsDigit(c[2])
  }

  /**
   * raw matches the local pattern with prefix raw[..i], "89" at i, and the
   * subscriber group at [j, e) of the rest.
   */
  predicate LocalSplit(raw: string, i: int, j: int, e: int)
  {
    0 <= i && i + 2 <= |raw| && IsPrefix(raw[..i]) && raw[i..i + 2] == "89"
    && TailSplit(raw[i + 2..], j, e)
  }

  /** raw matches the mobile pattern with prefix raw[..i] and carrier raw[i..i + 3]. */
  predicate MobileSplit(raw: string, i: int, j: int, e: int)
  {
    0 <= i && i + 3 <= |raw| && IsPrefix(raw[..i]) && IsCarrier(raw[i..i + 3])
    && TailSplit(raw[i + 3..], j, e)
  }

  ghost predicate IsLocal(raw: string)
  {
    exists i, j, e :: LocalSplit(raw, i, j, e)
  }

  ghost predicate IsMobile(raw: string)
  {
    exists i, j, e :: MobileSplit(raw, i, j, e)
  }

  /** `get_local_phone_no`: the captured subscriber group, when all of raw has the local shape. */
  function MatchLocal(raw: string): Option<string>
  {
    match IndexOf(raw, '8')
    case None => None
    case Some(i) =>
      if i + 1 < |raw| && raw[i + 1] == '9' && IsPrefix(raw[..i]) then MatchTail(raw[i + 2..])
      else None
  }

  datatype MobileMatch = MobileMatch(carrier: string, subscriber: string)

  /** `get_mobile_phone_no`: the carrier and subscriber groups, when all of raw has the mobile shape. */
  function MatchMobile(raw: string): Option<MobileMatch>
  {
    match IndexOf(raw, '1')
    case None => None
    case Some(i) =>
      if i + 3 <= |raw| && IsCarrier(raw[i..i + 3]) && IsPrefix(raw[..i]) then
        match MatchTail(raw[i + 3..])
        case None => None
        case Some(g) => Some(MobileMatch(raw[i..i + 3], g))
      else None
  }

  lemma IndexOfIs(s: string, c: char, i: nat)
    requires i < |s| && s[i] == c && c !in s[..i]
    ensures IndexOf(s, c) == Some(i)
  {
    assert s[i] in s;
  }

  lemma LocalSound(raw: string)
    requires MatchLocal(raw).Some?
    ensures exists i, j, e :: LocalSplit(raw, i, j, e) && MatchLocal(raw).value == raw[i + 2..][j..e]
  {
    var i := IndexOf(raw, '8').value;
    assert i + 1 < |raw| && raw[i + 1] == '9' && IsPrefix(raw[..i]);
    assert MatchLocal(raw) == MatchTail(raw[i + 2..]);
    LocalAt(raw, i);
  }

  /** "89" after a prefix, followed by a matching tail, is a local match with that tail's group. */
  lemma LocalAt(raw: string, i: nat)
    requires i + 1 < |raw| && raw[i] == '8' && raw[i + 1] == '9' && IsPrefix(raw[..i])
    requires MatchTail(raw[i + 2..]).Some?
    ensures exists j, e :: LocalSplit(raw, i, j, e) && MatchTail(raw[i + 2..]).value == raw[i + 2..][j..e]
  {
    TailSound(raw[i + 2..]);
    var j, e :| TailSplit(raw[i + 2..], j, e) && MatchTail(raw[i + 2..]).value == raw[i + 2..][j..e];
    assert raw[i..i + 2] == [raw[i], raw[i + 1]];
    assert LocalSplit(raw, i, j, e);
  }

  lemma {:induction false} LocalComplete(raw: string, i: int, j: int, e: int)
    requires LocalSplit(raw, i, j, e)
    ensures MatchLocal(raw).Some?
    ensures Digits(MatchLocal(raw).value) == Digits(raw[i + 2..])
  {
    PrefixChars(raw[..i]);
    assert raw[i] == raw[i..i + 2][0];
    IndexOfIs(raw, '8', i);
    assert raw[i + 1] == raw[i..i + 2][1];
    TailComplete(raw[i + 2..], j, e);
  }

  lemma MobileSound(raw: string)
    requires MatchMobile(raw).Some?
    ensures exists i, j, e :: MobileSplit(raw, i, j, e)
                              && MatchMobile(raw).value.carrier == raw[i..i + 3]
                              && MatchMobile(raw).value.subscriber == raw[i + 3..][j..e]
  {
    var i := IndexOf(raw, '1').value;
    TailSound(raw[i + 3..]);
    var j, e :| TailSplit(raw[i + 3..], j, e) && MatchTail(raw[i + 3..]).value == raw[i + 3..][j..e];
    assert MobileSplit(raw, i, j, e);
  }

  /** The carrier of a mobile match starts at the first '1' of the input. */
  lemma MobileStart(raw: string, i: int, j: int, e: int)
    requires MobileSplit(raw, i, j, e)
    ensures IndexOf(raw, '1') == Some(i)
  {
    PrefixChars(raw[..i]);
    assert raw[i] == raw[i..i + 3][0];
    IndexOfIs(raw, '1', i);
  }

  lemma {:induction false} MobileComplete(raw: string, i: int, j: int, e: int)
    requires MobileSplit(raw, i, j, e)
    ensures MatchMobile(raw).Some?
    ensures MatchMobile(raw).value.carrier == raw[i..i + 3]
    ensures Digits(MatchMobile(raw).value.subscriber) == Digits(raw[i + 3..])
  {
    MobileStart(raw, i, j, e);
    TailComplete(raw[i + 3..], j, e);
    var g := MatchTail(raw[i + 3..]).value;
    assert MatchMobile(raw) == Some(MobileMatch(raw[i..i + 3], g));
  }

  /** No input has both shapes: the local one wins only where the mobile one cannot match. */
  lemma {:induction false} ShapesExclusive(raw: string)
    ensures !(IsLocal(raw) && IsMobile(raw))
  {
    if IsLocal(raw) && IsMobile(raw) {
      var i, j, e :| LocalSplit(raw, i, j, e);
      var i', j', e' :| MobileSplit(raw, i', j', e');
      assert raw[i] == raw[i..i + 2][0];
      assert raw[i'] == raw[i'..i' + 3][0];
      PrefixChars(raw[..i]);
      PrefixChars(raw[..i']);
    }
  }

  // ---------------------------------------------------------------------
  // Harmonised form
  // ---------------------------------------------------------------------

  /** `harmonized_local_phone_no`: `' '.join(['+49 89', digits])`. */
  function HarmonizedLocal(subscriber: string): string
  {
    "+49 89 " + Digits(subscriber)
  }

  /** `harmonized_mobile_phone_no`: `' '.join(['+49', carrier, digits])`. */
  function HarmonizedMobile(m: MobileMatch): string
  {
    "+49 " + m.carrier + " " + Digits(m.subscriber)
  }

  /** `get_clean_phone_no`: local shape first, then mobile, otherwise `None`. */
  function CleanPhoneNo(raw: string): Option<string>
  {
    match MatchLocal(raw)
    case Some(subscriber) => Some(HarmonizedLocal(subscriber))
    case None =>
      match MatchMobile(raw)
      case Some(m) => Some(HarmonizedMobile(m))
      case None => None
  }

  /** A local match yields "+49 89 " and the digits that follow the "89". */
  lemma CleanLocal(raw: string, i: int, j: int, e: int)
    requires LocalSplit(raw, i, j, e)
    ensures CleanPhoneNo(raw) == Some("+49 89 " + Digits(raw[i + 2..]))
  {
    LocalComplete(raw, i, j, e);
  }

  /**
   * A mobile match yields "+49 ", the three-character carrier, a space and
   * the digits that follow the carrier.
   */
  lemma CleanMobile(raw: string, i: int, j: int, e: int)
    requires MobileSplit(raw, i, j, e)
    ensures CleanPhoneNo(raw) == Some("+49 " + raw[i..i + 3] + " " + Digits(raw[i + 3..]))
    ensures IsCarrier(raw[i..i + 3])
  {
    MobileNotLocal(raw, i, j, e);
    MobileComplete(raw, i, j, e);
    assert CleanPhoneNo(raw) == Some(HarmonizedMobile(MatchMobile(raw).value));
  }

  /** An input of the mobile shape is never taken for a local number. */
  lemma MobileNotLocal(raw: string, i: int, j: int, e: int)
    requires MobileSplit(raw, i, j, e)
    ensures MatchLocal(raw).None?
  {
    assert IsMobile(raw);
    if MatchLocal(raw).Some? {
      LocalSound(raw);
      ShapesExclusive(raw);
    }
  }

  /** The result is `None` exactly when neither pattern matches the whole input. */
  lemma CleanNoneIff(raw: string)
    ensures CleanPhoneNo(raw).None? <==> !IsLocal(raw) && !IsMobile(raw)
  {
    if IsLocal(raw) {
      var i, j, e :| LocalSplit(raw, i, j, e);
      CleanLocal(raw, i, j, e);
    } else if IsMobile(raw) {
      var i, j, e :| MobileSplit(raw, i, j, e);
      CleanMobile(raw, i, j, e);
    } else if MatchLocal(raw).Some? {
      LocalSound(raw);
    } else if MatchMobile(raw).Some? {
      MobileSound(raw);
    }
  }

  /**
   * Every result has one of the two output shapes, with a subscriber part
   * made of digits only (possibly none).
   */
  lemma CleanShape(raw: string)
    requires CleanPhoneNo(raw).Some?
    ensures var c := CleanPhoneNo(raw).value;
            (|c| >= 7 && c[..7] == "+49 89 " && AllDigits(c[7..]))
            || (|c| >= 8 && c[..4] == "+49 " && IsCarrier(c[4..7]) && c[7] == ' ' && AllDigits(c[8..]))
  {
    if MatchLocal(raw).Some? {
      LocalOutputShape(MatchLocal(raw).value);
    } else {
      MobileSound(raw);
      MobileOutputShape(MatchMobile(raw).value);
    }
  }

  lemma LocalOutputShape(subscriber: string)
    ensures var c := HarmonizedLocal(subscriber);
            |c| >= 7 && c[..7] == "+49 89 " && AllDigits(c[7..])
  {
    var c := HarmonizedLocal(subscriber);
    var d := Digits(subscriber);
    assert c == "+49 89 " + d;
    assert c[7..] == d;
  }

  lemma MobileOutputShape(m: MobileMatch)
    requires IsCarrier(m.carrier)
    ensures var c := HarmonizedMobile(m);
            |c| >= 8 && c[..4] == "+49 " && IsCarrier(c[4..7]) && c[7] == ' ' && AllDigits(c[8..])
  {
    var c := HarmonizedMobile(m);
    var d := Digits(m.subscriber);
    assert c == "+49 " + m.carrier + " " + d;
    assert c[4..7] == m.carrier && c[8..] == d;
  }

  /** "+49 " is a prefix: the optional '+', the country code and one lead separator. */
  lemma CountryCodePrefix()
    ensures IsPrefix("+49 ")
  {
    var p := "+49 ";
    assert p[1..][..2] == "49" && p[1..][2..] == " ";
    assert AfterZeros(p[1..]);
  }

  /** A space followed by digits is a tail whose digits are those digits. */
  lemma SpaceDigitsTail(d: string)
    requires AllDigits(d)
    ensures TailSplit(" " + d, 0, |d| + 1)
    ensures Digits(" " + d) == d
  {
    var t := " " + d;
    assert t[0..|t|] == t;
    assert t[..0] == "";
    DigitsAppend(" ", d);
    DigitsOfAllDigits(d);
  }

  /** A harmonised local number is matched by the local pattern and comes back unchanged. */
  lemma HarmonizedLocalFixed(d: string)
    requires AllDigits(d)
    ensures CleanPhoneNo("+49 89 " + d) == Some("+49 89 " + d)
  {
    var c := "+49 89 " + d;
    assert c[..4] == "+49 " && c[4..6] == "89" && c[6..] == " " + d;
    CountryCodePrefix();
    SpaceDigitsTail(d);
    assert LocalSplit(c, 4, 0, |d| + 1);
    CleanLocal(c, 4, 0, |d| + 1);
  }

  /** A harmonised mobile number is matched by the mobile pattern and comes back unchanged. */
  lemma HarmonizedMobileFixed(carrier: string, d: string)
    requires IsCarrier(carrier) && AllDigits(d)
    ensures CleanPhoneNo("+49 " + carrier + " " + d) == Some("+49 " + carrier + " " + d)
  {
    var c := "+49 " + carrier + " " + d;
    assert c[..4] == "+49 " && c[4..7] == carrier && c[7..] == " " + d;
    CountryCodePrefix();
    SpaceDigitsTail(d);
    assert MobileSplit(c, 4, 0, |d| + 1);
    CleanMobile(c, 4, 0, |d| + 1);
  }

  /** Both output shapes are fixed points of the normalisation. */
  lemma OutputShapeFixed(c: string)
    requires (|c| >= 7 && c[..7] == "+49 89 " && AllDigits(c[7..]))
             || (|c| >= 8 && c[..4] == "+49 " && IsCarrier(c[4..7]) && c[7] == ' ' && AllDigits(c[8..]))
    ensures CleanPhoneNo(c) == Some(c)
  {
    if |c| >= 7 && c[..7] == "+49 89 " && AllDigits(c[7..]) {
      assert c == "+49 89 " + c[7..];
      HarmonizedLocalFixed(c[7..]);
    } else {
      assert c == "+49 " + c[4..7] + " " + c[8..];
      HarmonizedMobileFixed(c[4..7], c[8..]);
    }
  }

  /** Normalising a harmonised number returns it unchanged. */
  lemma CleanIdempotent(raw: string)
    requires CleanPhoneNo(raw).Some?
    ensures CleanPhoneNo(CleanPhoneNo(raw).value) == CleanPhoneNo(raw)
  {
    CleanShape(raw);
    OutputShapeFixed(CleanPhoneNo(raw).value);
  }

  predicate IsAscii(s: string)
  {
    forall k :: 0 <= k < |s| ==> s[k] < 128 as char
  }

  lemma AsciiConcat(a: string, b: string)
    requires IsAscii(a) && IsAscii(b)
    ensures IsAscii(a + b)
  {
    assert forall k :: |a| <= k < |a + b| ==> (a + b)[k] == b[k - |a|];
  }

  lemma TailAscii(t: string, j: int, e: int)
    requires TailSplit(t, j, e)
    ensures IsAscii(t)
  {
    forall k | 0 <= k < |t| ensures t[k] < 128 as char {
      if k < j {
        assert t[k] == t[..j][k];
      } else if k < e {
        assert t[k] == t[j..e][k - j];
      }
    }
  }

  /** A prefix, a middle part and a tail, all ASCII. */
  lemma ThreePartsAscii(raw: string, i: int, tail: int, j: int, e: int)
    requires 0 <= i <= tail <= |raw| && IsPrefix(raw[..i]) && IsAscii(raw[i..tail])
    requires TailSplit(raw[tail..], j, e)
    ensures IsAscii(raw)
  {
    PrefixChars(raw[..i]);
    TailAscii(raw[tail..], j, e);
    assert raw == raw[..i] + raw[i..tail] + raw[tail..];
    AsciiConcat(raw[..i], raw[i..tail]);
    AsciiConcat(raw[..i] + raw[i..tail], raw[tail..]);
  }

  lemma LocalAscii(raw: string, i: int, j: int, e: int)
    requires LocalSplit(raw, i, j, e)
    ensures IsAscii(raw)
  {
    assert raw[i..i + 2] == "89";
    ThreePartsAscii(raw, i, i + 2, j, e);
  }

  lemma MobileAscii(raw: string, i: int, j: int, e: int)
    requires MobileSplit(raw, i, j, e)
    ensures IsAscii(raw)
  {
    assert IsCarrier(raw[i..i + 3]);
    ThreePartsAscii(raw, i, i + 3, j, e);
  }

  /**
   * Every accepted input is plain ASCII, so the byte length Python's `len`
   * gives equals the character count the audit line pads with.
   */
  lemma AcceptedIsAscii(raw: string)
    requires CleanPhoneNo(raw).Some?
    ensures IsAscii(raw)
  {
    CleanNoneIff(raw);
    if IsLocal(raw) {
      var i, j, e :| LocalSplit(raw, i, j, e);
      LocalAscii(raw, i, j, e);
    } else {
      var i, j, e :| MobileSplit(raw, i, j, e);
      MobileAscii(raw, i, j, e);
    }
  }

  /**
   * A Munich landline written with the trunk prefix 0 and a space, such as
   * the doc-comment example "089 12345678".
   */
  lemma TrunkLocal(d: string)
    requires AllDigits(d)
    ensures CleanPhoneNo("089 " + d) == Some("+49 89 " + d)
  {
    var a := "089 " + d;
    assert a[..1] == "0" && a[1..3] == "89" && a[3..] == " " + d;
    SpaceDigitsTail(d);
    assert LocalSplit(a, 1, 0, |d| + 1);
    CleanLocal(a, 1, 0, |d| + 1);
  }

  /**
   * A mobile number written with the trunk prefix 0 and a space, such as
   * the doc-comment example "0171 12345678".
   */
  lemma TrunkMobile(carrier: string, d: string)
    requires IsCarrier(carrier) && AllDigits(d)
    ensures CleanPhoneNo("0" + carrier + " " + d) == Some("+49 " + carrier + " " + d)
  {
    var b := "0" + carrier + " " + d;
    assert b[..1] == "0" && b[1..4] == carrier && b[4..] == " " + d;
    SpaceDigitsTail(d);
    assert MobileSplit(b, 1, 0, |d| + 1);
    CleanMobile(b, 1, 0, |d| + 1);
  }

  /**
   * The subscriber group needs one character but no digit: "089" followed
   * by separators only is accepted, with an empty subscriber number.
   */
  lemma LocalWithoutDigits(t: string)
    requires |t| > 0 && AllSep(t)
    ensures CleanPhoneNo("089" + t) == Some("+49 89 ")
  {
    var a := "089" + t;
    assert a[..1] == "0" && a[1..3] == "89" && a[3..] == t;
    assert AllSep(t[..|t| - 1]) by {
      assert forall k :: 0 <= k < |t| - 1 ==> t[..|t| - 1][k] == t[k];
    }
    assert IsSepChar(t[|t| - 1]);
    assert AllSubscriber(t[|t| - 1..|t|]);
    assert LocalSplit(a, 1, |t| - 1, |t|);
    CleanLocal(a, 1, |t| - 1, |t|);
    SepsHaveNoDigits(t);
    assert "+49 89 " + Digits(a[3..]) == "+49 89 ";
  }

  lemma ExampleWithoutDigits()
    ensures CleanPhoneNo("089 -") == Some("+49 89 ")
  {
    LocalWithoutDigits(" -");
    assert "089" + " -" == "089 -";
  }

  /** Text with neither an '8' nor a '1' is never a phone number: both patterns need one. */
  lemma RejectedWithoutEightOrOne(raw: string)
    requires '8' !in raw && '1' !in raw
    ensures CleanPhoneNo(raw) == None
  {
    assert IndexOf(raw, '8').None? && IndexOf(raw, '1').None?;
  }

  lemma ExampleRejected()
    ensures CleanPhoneNo("not a phone") == None
  {
    RejectedWithoutEightOrOne("not a phone");
  }

  // ---------------------------------------------------------------------
  // read_phone_no and audit
  // ---------------------------------------------------------------------

  const PhoneSeparators: set<char> := {',', ';'}

  /** The numbers of one line: its pieces between ',' and ';', each stripped. */
  function NumbersOfLine(line: string): seq<string>
  {
    StripAll(Split(line, PhoneSeparators))
  }

  /** The numbers `read_phone_no` collects from the lines, line after line. */
  function NumbersOf(lines: seq<string>): seq<string>
  {
    FlatMap(NumbersOfLine, lines)
  }

  /** Every collected number is stripped and holds neither ',' nor ';'. */
  lemma NumbersOfClean(lines: seq<string>)
    ensures forall k :: 0 <= k < |NumbersOf(lines)| ==>
              IsStripped(NumbersOf(lines)[k]) && NoneIn(NumbersOf(lines)[k], PhoneSeparators)
  {
    var ns := NumbersOf(lines);
    FlatMapSound(NumbersOfLine, lines);
    forall k | 0 <= k < |ns|
      ensures IsStripped(ns[k]) && NoneIn(ns[k], PhoneSeparators)
    {
      assert ns[k] in ns;
      var l :| 0 <= l < |lines| && ns[k] in NumbersOfLine(lines[l]);
      var pieces := Split(lines[l], PhoneSeparators);
      var q :| 0 <= q < |pieces| && ns[k] == StripAll(pieces)[q];
      StripSpec(pieces[q]);
      StripOfNoSeparator(pieces[q]);
    }
  }

  lemma StripOfNoSeparator(s: string)
    requires NoneIn(s, PhoneSeparators)
    ensures NoneIn(Strip(s), PhoneSeparators)
  {
    var r := Strip(s);
    StripSpec(s);
    var i :| 0 <= i <= |s| - |r| && r == s[i..i + |r|] && AllSpace(s[..i]) && AllSpace(s[i + |r|..]);
    assert forall k :: 0 <= k < |r| ==> r[k] == s[i + k];
  }

  /** `read_phone_no`, given the lines of the file. */
  method ReadPhoneNo(lines: seq<string>) returns (phoneNumbers: seq<string>)
    ensures phoneNumbers == NumbersOf(lines)
  {
    phoneNumbers := [];
    var n := 0;
    while n < |lines|
      invariant 0 <= n <= |lines|
      invariant phoneNumbers == NumbersOf(lines[..n])
    {
      var numbers := Split(lines[n], PhoneSeparators);
      ghost var before := phoneNumbers;
      var k := 0;
      while k < |numbers|
        invariant 0 <= k <= |numbers|
        invariant phoneNumbers == before + StripAll(numbers[..k])
      {
        StripAllStep(numbers, k);
        phoneNumbers := phoneNumbers + [Strip(numbers[k])];
        k := k + 1;
      }
      assert numbers[..k] == numbers;
      FlatMapStep(NumbersOfLine, lines, n);
      n := n + 1;
    }
    assert lines[..n] == lines;
  }

  /** One line of the audit: the value padded to 24 columns, an arrow, a tab, the normalised form. */
  function AuditLine(phoneNo: string, clean: string): string
  {
    phoneNo + Spaces(24 - |phoneNo|) + "-->\t" + clean
  }

  /** The line `audit` prints for one number, none when it does not normalise. */
  function AuditOf(phoneNo: string): (r: seq<string>)
    ensures |r| <= 1
  {
    match CleanPhoneNo(phoneNo)
    case Some(c) => [AuditLine(phoneNo, c)]
    case None => []
  }

  /** The lines `audit` prints for the numbers, in order. */
  function AuditLines(numbers: seq<string>): seq<string>
  {
    FlatMap(AuditOf, numbers)
  }

  lemma AuditLineLayout(phoneNo: string, clean: string)
    ensures var line := AuditLine(phoneNo, clean);
            var col := if |phoneNo| < 24 then 24 else |phoneNo|;
            && |line| == col + 4 + |clean|
            && line[..|phoneNo|] == phoneNo
            && (forall k :: |phoneNo| <= k < col ==> line[k] == ' ')
            && line[col..col + 4] == "-->\t"
            && line[col + 4..] == clean
  {
    var line := AuditLine(phoneNo, clean);
    var col := if |phoneNo| < 24 then 24 else |phoneNo|;
    var pad := Spaces(24 - |phoneNo|);
    assert line == phoneNo + pad + "-->\t" + clean;
    assert |pad| == col - |phoneNo|;
    assert forall k :: |phoneNo| <= k < col ==> line[k] == pad[k - |phoneNo|];
  }

  /** Every audit line belongs to a number that normalises. */
  lemma AuditLinesSound(numbers: seq<string>)
    ensures |AuditLines(numbers)| <= |numbers|
    ensures forall line :: line in AuditLines(numbers) ==>
              exists k :: 0 <= k < |numbers| && CleanPhoneNo(numbers[k]).Some?
                          && line == AuditLine(numbers[k], CleanPhoneNo(numbers[k]).value)
  {
    FlatMapSound(AuditOf, numbers);
    forall line | line in AuditLines(numbers)
      ensures exists k :: 0 <= k < |numbers| && CleanPhoneNo(numbers[k]).Some?
                          && line == AuditLine(numbers[k], CleanPhoneNo(numbers[k]).value)
    {
      var k :| 0 <= k < |numbers| && line in AuditOf(numbers[k]);
    }
  }

  /** Every number that normalises has its audit line. */
  lemma AuditLinesComplete(numbers: seq<string>, k: int)
    requires 0 <= k < |numbers| && CleanPhoneNo(numbers[k]).Some?
    ensures AuditLine(numbers[k], CleanPhoneNo(numbers[k]).value) in AuditLines(numbers)
  {
    FlatMapComplete(AuditOf, numbers, k);
    assert AuditLine(numbers[k], CleanPhoneNo(numbers[k]).value) in AuditOf(numbers[k]);
  }

  /** `audit`, given the lines of the file: the lines it prints. */
  method Audit(lines: seq<string>) returns (out: seq<string>)
    ensures out == AuditLines(NumbersOf(lines))
  {
    var numbers := ReadPhoneNo(lines);
    out := [];
    var n := 0;
    while n < |numbers|
      invariant 0 <= n <= |numbers|
      invariant out == AuditLines(numbers[..n])
    {
      var phoneNo := numbers[n];
      FlatMapStep(AuditOf, numbers, n);
      var clean := CleanPhoneNo(phoneNo);
      if clean.Some? {
        out := out + [AuditLine(phoneNo, clean.value)];
      } else {
        assert AuditOf(phoneNo) == [];
      }
      n := n + 1;
    }
    assert numbers[..n] == numbers;
  }
}
