/**
 * Character-level counterparts of the Python 2 string operations the
 * pipeline relies on: `str.strip()`, `re.split` on a character class,
 * `str.split`/`str.join` on one character, `re.sub(r'[^\d]', '', s)` and
 * the ASCII-only case folding of `re.IGNORECASE` on byte strings.
 */
module Text {
  import opened Wrappers

  /** Whitespace of a Python 2 byte string: what `str.strip()` removes and `\s` matches. */
  predicate IsSpace(c: char)
  {
    c == ' ' || c == '\t' || c == '\n' || c == '\r' || c == '\U{000B}' || c == '\U{000C}'
  }

  /** `\d` of a Python 2 byte pattern. */
  predicate IsDigit(c: char)
  {
    '0' <= c <= '9'
  }

  predicate AllSpace(s: string)
  {
    forall i :: 0 <= i < |s| ==> IsSpace(s[i])
  }

  predicate AllDigits(s: string)
  {
    forall i :: 0 <= i < |s| ==> IsDigit(s[i])
  }

  /** No character of s belongs to cs. */
  predicate NoneIn(s: string, cs: set<char>)
  {
    forall i :: 0 <= i < |s| ==> s[i] !in cs
  }

  /** Python 2 byte strings fold case for ASCII letters only. */
  function LowerAscii(c: char): char
  {
    if 'A' <= c <= 'Z' then (c as int + 32) as char else c
  }

  /** The first position of c in s, if any (`str.find`, `list.index`). */
  function IndexOf<T(==)>(s: seq<T>, c: T): (r: Option<nat>)
    ensures r.None? ==> c !in s
    ensures r.Some? ==> r.value < |s| && s[r.value] == c && c !in s[..r.value]
  {
    if s == [] then None
    else if s[0] == c then Some(0)
    else
      match IndexOf(s[1..], c)
      case None => None
      case Some(i) => assert s[1..][..i] == s[1..i + 1]; Some(i + 1)
  }

  /** s without the final newline, if any: where Python's `$` also holds. */
  function Body(s: string): string
  {
    if |s| > 0 && s[|s| - 1] == '\n' then s[..|s| - 1] else s
  }

  // ---------------------------------------------------------------------
  // str.strip()
  // ---------------------------------------------------------------------

  /** A string with no whitespace at either end. */
  predicate IsStripped(s: string)
  {
    s == [] || (!IsSpace(s[0]) && !IsSpace(s[|s| - 1]))
  }

  /** How many whitespace characters s starts with. */
  function LeadingSpaces(s: string): (n: nat)
    ensures n <= |s|
  {
    if s != [] && IsSpace(s[0]) then 1 + LeadingSpaces(s[1..]) else 0
  }

  /** How many whitespace characters s ends with. */
  function TrailingSpaces(s: string): (n: nat)
    ensures n <= |s|
  {
    if s != [] && IsSpace(s[|s| - 1]) then 1 + TrailingSpaces(s[..|s| - 1]) else 0
  }

  lemma {:induction false} LeadingSpacesSpec(s: string)
    ensures AllSpace(s[..LeadingSpaces(s)])
    ensures LeadingSpaces(s) == |s| || !IsSpace(s[LeadingSpaces(s)])
  {
    if s != [] && IsSpace(s[0]) {
      LeadingSpacesSpec(s[1..]);
      var n := LeadingSpaces(s[1..]);
      var lead, rest := s[..n + 1], s[1..][..n];
      forall k | 0 <= k < |lead| ensures IsSpace(lead[k]) {
        if k > 0 {
          assert lead[k] == rest[k - 1];
        }
      }
    }
  }

  lemma {:induction false} TrailingSpacesSpec(s: string)
    ensures AllSpace(s[|s| - TrailingSpaces(s)..])
    ensures TrailingSpaces(s) == |s| || !IsSpace(s[|s| - TrailingSpaces(s) - 1])
  {
    if s != [] && IsSpace(s[|s| - 1]) {
      var t := s[..|s| - 1];
      TrailingSpacesSpec(t);
      var n := TrailingSpaces(t);
      var trail, rest := s[|s| - n - 1..], t[|t| - n..];
      forall k | 0 <= k < |trail| ensures IsSpace(trail[k]) {
        if k < n {
          assert trail[k] == rest[k];
        }
      }
    }
  }

  /** `str.strip()`: s with the whitespace at both ends cut away. */
  function Strip(s: string): string
  {
    var t := s[LeadingSpaces(s)..];
    t[..|t| - TrailingSpaces(t)]
  }

  /**
   * What `str.strip()` keeps is one slice of s that starts and ends with a
   * non-space character, and all it cuts away on either side is whitespace.
   */
  lemma StripSpec(s: string)
    ensures IsStripped(Strip(s))
    ensures var r := Strip(s);
            exists i :: 0 <= i <= |s| - |r| && r == s[i..i + |r|]
                        && AllSpace(s[..i]) && AllSpace(s[i + |r|..])
  {
    var i := LeadingSpaces(s);
    var t := s[i..];
    var n := |t| - TrailingSpaces(t);
    var r := t[..n];
    assert Strip(s) == r;
    LeadingSpacesSpec(s);
    TrailingSpacesSpec(t);
    assert r == s[i..i + n];
    assert s[i + n..] == t[n..];
    if r != [] {
      assert r[0] == t[0];
      assert r[n - 1] == t[n - 1];
    }
    assert IsStripped(r);
    assert 0 <= i <= |s| - |r| && r == s[i..i + |r|] && AllSpace(s[..i]) && AllSpace(s[i + |r|..]);
  }

  /** Each piece stripped, in order. */
  function StripAll(pieces: seq<string>): (r: seq<string>)
    ensures |r| == |pieces|
    ensures forall k :: 0 <= k < |r| ==> r[k] == Strip(pieces[k])
  {
    if pieces == [] then [] else StripAll(pieces[..|pieces| - 1]) + [Strip(pieces[|pieces| - 1])]
  }

  lemma StripAllStep(pieces: seq<string>, k: int)
    requires 0 <= k < |pieces|
    ensures StripAll(pieces[..k + 1]) == StripAll(pieces[..k]) + [Strip(pieces[k])]
  {
    assert pieces[..k + 1][..k] == pieces[..k];
  }

  // ---------------------------------------------------------------------
  // Splitting and joining
  // ---------------------------------------------------------------------

  /** The separator characters of s, in order. */
  function Separators(s: string, seps: set<char>): (r: seq<char>)
    ensures |r| == 0 <==> NoneIn(s, seps)
    ensures forall k :: 0 <= k < |r| ==> r[k] in seps
  {
    if s == [] then []
    else (if s[0] in seps then [s[0]] else []) + Separators(s[1..], seps)
  }

  /**
   * `re.split` on a character class (`str.split` on one character): the
   * pieces between separators, empty pieces included, in order.
   */
  function Split(s: string, seps: set<char>): (r: seq<string>)
    ensures |r| == 1 + |Separators(s, seps)|
    ensures forall k :: 0 <= k < |r| ==> NoneIn(r[k], seps)
    decreases |s|
  {
    if s == [] then [""]
    else
      var rest := Split(s[1..], seps);
      if s[0] in seps then [""] + rest
      else [[s[0]] + rest[0]] + rest[1..]
  }

  /** pieces[0] + cs[0] + pieces[1] + ... + cs[n-1] + pieces[n]. */
  function Interleave(pieces: seq<string>, cs: seq<char>): string
    requires |pieces| == |cs| + 1
    decreases |cs|
  {
    if cs == [] then pieces[0]
    else pieces[0] + [cs[0]] + Interleave(pieces[1..], cs[1..])
  }

  /** Splitting loses nothing: putting the separators back gives s. */
  lemma {:induction false} SplitRoundTrip(s: string, seps: set<char>)
    ensures Interleave(Split(s, seps), Separators(s, seps)) == s
    decreases |s|
  {
    if s != [] {
      SplitRoundTrip(s[1..], seps);
      var rest := Split(s[1..], seps);
      var cs := Separators(s[1..], seps);
      if s[0] !in seps {
        assert Separators(s, seps) == cs;
        InterleaveConsFirst(s[0], rest, cs);
      }
    }
  }

  lemma {:induction false} InterleaveConsFirst(c: char, pieces: seq<string>, cs: seq<char>)
    requires |pieces| == |cs| + 1
    ensures Interleave([[c] + pieces[0]] + pieces[1..], cs) == [c] + Interleave(pieces, cs)
  {
    var p := [[c] + pieces[0]] + pieces[1..];
    if cs != [] {
      assert p[1..] == pieces[1..];
    }
  }

  /** `c.join(pieces)`. */
  function Join(pieces: seq<string>, c: char): string
    decreases |pieces|
  {
    if |pieces| == 0 then ""
    else if |pieces| == 1 then pieces[0]
    else pieces[0] + [c] + Join(pieces[1..], c)
  }

  /** Splitting at one character and joining with it again gives back s. */
  lemma {:induction false} JoinSplit(s: string, c: char)
    ensures Join(Split(s, {c}), c) == s
  {
    SplitRoundTrip(s, {c});
    JoinIsInterleave(Split(s, {c}), Separators(s, {c}), c);
  }

  lemma {:induction false} JoinIsInterleave(pieces: seq<string>, cs: seq<char>, c: char)
    requires |pieces| == |cs| + 1
    requires forall k :: 0 <= k < |cs| ==> cs[k] == c
    ensures Join(pieces, c) == Interleave(pieces, cs)
    decreases |cs|
  {
    if cs != [] {
      JoinIsInterleave(pieces[1..], cs[1..], c);
    }
  }

  /**
   * Splitting at one character: without it s is a single piece; otherwise
   * the first piece is what comes before its first occurrence and the rest
   * are the pieces of what follows it.
   */
  lemma {:induction false} SplitOne(s: string, c: char)
    ensures IndexOf(s, c).None? ==> Split(s, {c}) == [s]
    ensures IndexOf(s, c).Some? ==>
              var i := IndexOf(s, c).value;
              Split(s, {c}) == [s[..i]] + Split(s[i + 1..], {c})
  {
    match IndexOf(s, c)
    case None =>
      assert forall k :: 0 <= k < |s| ==> s[k] != c;
      SplitNone(s, {c});
    case Some(i) =>
      assert forall k :: 0 <= k < i ==> s[..i][k] != c;
      SplitAt(s, {c}, i);
  }

  /** Text without a separator is a single piece. */
  lemma {:induction false} SplitNone(s: string, seps: set<char>)
    requires NoneIn(s, seps)
    ensures Split(s, seps) == [s]
    decreases |s|
  {
    if s != [] {
      assert forall k :: 0 <= k < |s| - 1 ==> s[1..][k] == s[k + 1];
      SplitNone(s[1..], seps);
      assert [s[0]] + s[1..] == s;
    }
  }

  /** At the first separator, at position i, the first piece ends and the rest is split on. */
  lemma {:induction false} SplitAt(s: string, seps: set<char>, i: int)
    requires 0 <= i < |s| && s[i] in seps && NoneIn(s[..i], seps)
    ensures Split(s, seps) == [s[..i]] + Split(s[i + 1..], seps)
    decreases i
  {
    if i > 0 {
      var t := s[1..];
      assert s[0] == s[..i][0];
      var u := t[..i - 1];
      forall k | 0 <= k < |u| ensures u[k] !in seps {
        assert u[k] == s[..i][k + 1];
      }
      assert t[i - 1] == s[i];
      SplitAt(t, seps, i - 1);
      assert t[i..] == s[i + 1..];
      assert [s[0]] + t[..i - 1] == s[..i];
    }
  }

  // ---------------------------------------------------------------------
  // Concatenating per-element outputs
  // ---------------------------------------------------------------------

  /** The outputs of f for the elements of xs, concatenated in order. */
  function FlatMap<T, U>(f: T -> seq<U>, xs: seq<T>): seq<U>
  {
    if xs == [] then [] else FlatMap(f, xs[..|xs| - 1]) + f(xs[|xs| - 1])
  }

  lemma FlatMapStep<T, U>(f: T -> seq<U>, xs: seq<T>, n: int)
    requires 0 <= n < |xs|
    ensures FlatMap(f, xs[..n + 1]) == FlatMap(f, xs[..n]) + f(xs[n])
  {
    assert xs[..n + 1][..n] == xs[..n];
  }

  /** Every output comes from some element, and at most one output each gives at most |xs|. */
  lemma {:induction false} FlatMapSound<T, U>(f: T -> seq<U>, xs: seq<T>)
    ensures forall y :: y in FlatMap(f, xs) ==> exists k :: 0 <= k < |xs| && y in f(xs[k])
    ensures (forall k :: 0 <= k < |xs| ==> |f(xs[k])| <= 1) ==> |FlatMap(f, xs)| <= |xs|
    decreases |xs|
  {
    if xs != [] {
      var m := |xs| - 1;
      var init := xs[..m];
      FlatMapSound(f, init);
      forall y | y in FlatMap(f, xs) ensures exists k :: 0 <= k < |xs| && y in f(xs[k]) {
        if y in FlatMap(f, init) {
          var k :| 0 <= k < |init| && y in f(init[k]);
          assert init[k] == xs[k];
        } else {
          assert y in f(xs[m]);
        }
      }
      if forall k :: 0 <= k < |xs| ==> |f(xs[k])| <= 1 {
        assert forall k :: 0 <= k < |init| ==> init[k] == xs[k];
        assert |f(xs[m])| <= 1;
      }
    }
  }

  /** Every output of every element appears in the concatenation. */
  lemma {:induction false} FlatMapComplete<T, U>(f: T -> seq<U>, xs: seq<T>, k: int)
    requires 0 <= k < |xs|
    ensures forall y :: y in f(xs[k]) ==> y in FlatMap(f, xs)
    decreases |xs|
  {
    var m := |xs| - 1;
    var init := xs[..m];
    if k < m {
      assert init[k] == xs[k];
      FlatMapComplete(f, init, k);
    }
  }

  // ---------------------------------------------------------------------
  // Digits and padding
  // ---------------------------------------------------------------------

  /** `re.sub(r'[^\d]', '', s)`: the digits of s, in order. */
  function Digits(s: string): (r: string)
    ensures AllDigits(r)
    ensures |r| <= |s|
  {
    if s == [] then []
    else (if IsDigit(s[0]) then [s[0]] else []) + Digits(s[1..])
  }

  lemma {:induction false} DigitsAppend(a: string, b: string)
    ensures Digits(a + b) == Digits(a) + Digits(b)
    decreases |a|
  {
    if a != [] {
      var h := if IsDigit(a[0]) then [a[0]] else [];
      assert (a + b)[0] == a[0] && (a + b)[1..] == a[1..] + b;
      DigitsAppend(a[1..], b);
      calc {
        Digits(a + b);
        h + Digits(a[1..] + b);
        h + (Digits(a[1..]) + Digits(b));
        (h + Digits(a[1..])) + Digits(b);
      }
    } else {
      assert a + b == b;
    }
  }

  lemma {:induction false} DigitsOfNoDigits(s: string)
    requires forall i :: 0 <= i < |s| ==> !IsDigit(s[i])
    ensures Digits(s) == ""
    decreases |s|
  {
    if s != [] {
      DigitsOfNoDigits(s[1..]);
    }
  }

  lemma {:induction false} DigitsOfAllDigits(s: string)
    requires AllDigits(s)
    ensures Digits(s) == s
    decreases |s|
  {
    if s != [] {
      DigitsOfAllDigits(s[1..]);
    }
  }

  /** `' ' * n`, which is empty when n is not positive. */
  function Spaces(n: int): (r: string)
    ensures |r| == if n <= 0 then 0 else n
    ensures forall i :: 0 <= i < |r| ==> r[i] == ' '
    decreases n
  {
    if n <= 0 then "" else [' '] + Spaces(n - 1)
  }
}
