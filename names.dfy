/** File names: the stem/extension split that createPath performs with the regular
    expression (\S+)\.(\S+), and the numbered names it generates on a collision. */
module Names {
  import opened Results
  import opened Paths

  /** Java's \s: space, tab, line feed, vertical tab, form feed, carriage return. */
  predicate IsWhitespace(c: char)
  {
    c == ' ' || c == '\t' || c == '\n' || c == '\U{000B}' || c == '\U{000C}' || c == '\r'
  }

  predicate NoWhitespace(s: string)
  {
    forall i :: 0 <= i < |s| ==> !IsWhitespace(s[i])
  }

  /** The whole of s matches (\S+)\.(\S+) with the first group ending just before index k. */
  ghost predicate MatchesAt(s: string, k: int)
  {
    1 <= k <= |s| - 2 && s[k] == '.' && NoWhitespace(s[..k]) && NoWhitespace(s[k + 1..])
  }

  /** The highest index k in 1..hi with s[k] == '.'. */
  function LastDot(s: string, hi: int): (r: Option<nat>)
    requires hi < |s|
    ensures r.Some? ==> 1 <= r.value <= hi && s[r.value] == '.'
    ensures r.Some? ==> forall k :: r.value < k <= hi ==> s[k] != '.'
    ensures r.None? ==> forall k :: 1 <= k <= hi ==> s[k] != '.'
    decreases hi
  {
    if hi < 1 then None
    else if s[hi] == '.' then Some(hi)
    else LastDot(s, hi - 1)
  }

  /** A file name cut into its stem (the first group) and its extension (the second group,
      null in the source when the pattern does not match). */
  datatype Split = Split(stem: string, extension: Option<string>)

  /** The greedy first group of (\S+)\.(\S+) takes as much as it can, so the split falls at
      the last dot that leaves at least one character on either side; a name holding any
      whitespace does not match at all. */
  function SplitName(name: string): Split
  {
    if !NoWhitespace(name) then Split(name, None)
    else
      match LastDot(name, |name| - 2)
      case None => Split(name, None)
      case Some(k) => Split(name[..k], Some(name[k + 1..]))
  }

  lemma NoWhitespaceAround(s: string, k: int)
    requires 0 <= k < |s| && s[k] == '.'
    ensures NoWhitespace(s) <==> NoWhitespace(s[..k]) && NoWhitespace(s[k + 1..])
  {
    if NoWhitespace(s[..k]) && NoWhitespace(s[k + 1..]) {
      forall i | 0 <= i < |s| ensures !IsWhitespace(s[i]) {
        if i < k { assert s[i] == s[..k][i]; }
        else if i > k { assert s[i] == s[k + 1..][i - k - 1]; }
      }
    }
  }

  /** The split is exactly the regular expression's match: there is an extension iff the
      pattern matches, and then the first group is the longest one the pattern allows. */
  lemma SplitNameIsGreedyMatch(name: string)
    ensures SplitName(name).extension.Some? <==> exists k :: MatchesAt(name, k)
    ensures SplitName(name).extension.Some? ==>
      var k := |SplitName(name).stem|;
      && MatchesAt(name, k)
      && SplitName(name) == Split(name[..k], Some(name[k + 1..]))
      && forall j :: MatchesAt(name, j) ==> j <= k
  {
    var sp := SplitName(name);
    if exists k :: MatchesAt(name, k) {
      var k :| MatchesAt(name, k);
      NoWhitespaceAround(name, k);
      assert LastDot(name, |name| - 2).Some?;
    }
    if sp.extension.Some? {
      var k := |sp.stem|;
      NoWhitespaceAround(name, k);
      assert MatchesAt(name, k);
    }
  }

  /** When the pattern matches, stem "." extension is the name again, both parts are
      non-empty and free of whitespace; otherwise the stem is the whole name. */
  lemma SplitNameRoundTrip(name: string)
    ensures var sp := SplitName(name);
      match sp.extension
      case Some(ext) =>
        sp.stem + "." + ext == name && sp.stem != [] && ext != []
        && NoWhitespace(sp.stem) && NoWhitespace(ext)
      case None => sp.stem == name
  {
    var sp := SplitName(name);
    if sp.extension.Some? {
      var k := |sp.stem|;
      NoWhitespaceAround(name, k);
      assert name == name[..k] + "." + name[k + 1..];
    }
  }

  /** Names with whitespace, with no dot, or whose only dots are the first or the last
      character (".gitignore", "a.") have no extension. */
  lemma SplitNameNoExtension(name: string)
    requires || !NoWhitespace(name)
             || (forall i :: 0 <= i < |name| ==> name[i] != '.')
             || (forall i :: 0 <= i < |name| && name[i] == '.' ==> i == 0 || i == |name| - 1)
    ensures SplitName(name) == Split(name, None)
  {
  }

  function Digit(d: nat): (c: char)
    requires d < 10
    ensures '0' <= c <= '9'
  {
    ('0' as int + d) as char
  }

  /** Integer.toString for a natural number: its decimal digits, most significant first. */
  function DecimalString(n: nat): (s: string)
    ensures s != []
    ensures forall i :: 0 <= i < |s| ==> '0' <= s[i] <= '9'
  {
    if n < 10 then [Digit(n)] else DecimalString(n / 10) + [Digit(n % 10)]
  }

  /** The i-th collision-avoiding name: stem "_" i, followed by "." extension when the
      original name has one. */
  function NumberedName(stem: string, extension: Option<string>, i: nat): string
  {
    var numbered := stem + "_" + DecimalString(i);
    match extension
    case None => numbered
    case Some(ext) => numbered + "." + ext
  }

  lemma NoWhitespaceConcat(a: string, b: string)
    ensures NoWhitespace(a + b) <==> NoWhitespace(a) && NoWhitespace(b)
  {
    if NoWhitespace(a + b) {
      forall j | 0 <= j < |b| ensures !IsWhitespace(b[j]) { assert b[j] == (a + b)[|a| + j]; }
      forall j | 0 <= j < |a| ensures !IsWhitespace(a[j]) { assert a[j] == (a + b)[j]; }
    }
  }

  /** An extension holds a dot at most as its last character: any earlier dot would have
      been a later split point for the greedy first group. */
  lemma ExtensionDots(name: string)
    requires SplitName(name).extension.Some?
    ensures var ext := SplitName(name).extension.value;
      forall t :: 0 <= t < |ext| - 1 ==> ext[t] != '.'
  {
    var k := |SplitName(name).stem|;
    var ext := SplitName(name).extension.value;
    forall t | 0 <= t < |ext| - 1 ensures ext[t] != '.' {
      assert ext[t] == name[k + 1 + t];
    }
  }

  /** Renaming keeps the extension: splitting a numbered name gives back the numbered stem and
      the very same extension. */
  lemma NumberedNameKeepsExtension(name: string, i: nat)
    requires SplitName(name).extension.Some?
    ensures var sp := SplitName(name);
      SplitName(NumberedName(sp.stem, sp.extension, i))
        == Split(sp.stem + "_" + DecimalString(i), sp.extension)
  {
    var sp := SplitName(name);
    var stem, ext := sp.stem, sp.extension.value;
    SplitNameRoundTrip(name);
    ExtensionDots(name);
    var stem' := stem + "_" + DecimalString(i);
    var c := NumberedName(stem, sp.extension, i);
    assert c == stem' + "." + ext;
    NoWhitespaceConcat(stem, "_");
    NoWhitespaceConcat(stem + "_", DecimalString(i));
    NoWhitespaceConcat(stem', ".");
    NoWhitespaceConcat(stem' + ".", ext);
    var k := |stem'|;
    forall j | k < j <= |c| - 2 ensures c[j] != '.' {
      assert c[j] == ext[j - k - 1];
    }
    assert c[k] == '.' && 1 <= k <= |c| - 2;
    var r := LastDot(c, |c| - 2);
    assert r.Some? && r.value >= k;
    assert r == Some(k);
    assert c[..k] == stem';
    assert c[k + 1..] == ext;
  }

  /** A numbered name is always longer than the name it was derived from, so it never
      coincides with it. */
  lemma NumberedNameIsLonger(name: string, i: nat)
    ensures var sp := SplitName(name);
      |NumberedName(sp.stem, sp.extension, i)| > |name|
  {
    SplitNameRoundTrip(name);
  }

  /** A numbered name built from a name element is again a name element: non-empty and
      free of the separator. */
  lemma NumberedNameIsSegment(name: Segment, i: nat)
    ensures var sp := SplitName(name);
      var c := NumberedName(sp.stem, sp.extension, i);
      c != [] && Separator !in c
  {
    var sp := SplitName(name);
    SplitNameRoundTrip(name);
    var c := NumberedName(sp.stem, sp.extension, i);
    forall j | 0 <= j < |c| ensures c[j] != Separator {
      var stem := sp.stem;
      var digits := DecimalString(i);
      if j < |stem| {
        assert c[j] == stem[j];
        if sp.extension.Some? { assert stem[j] == name[j]; }
      } else if j > |stem| + |digits| + 1 {
        var ext := sp.extension.value;
        assert c[j] == ext[j - |stem| - |digits| - 2] == name[j - |digits| - 1];
      } else if |stem| < j <= |stem| + |digits| {
        assert c[j] == digits[j - |stem| - 1];
      }
    }
  }
}
