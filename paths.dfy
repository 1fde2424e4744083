/** Paths of the default (Unix-style) file system, whose separator is "/".
    A path is the sequence of its name elements; the empty sequence is the empty path "",
    which names the working directory. */
module Paths {
  import opened Results

  const Separator: char := '/'

  /** One name element: never empty and never holding the separator. */
  type Segment = s: string | s != [] && Separator !in s witness "a"

  type Path = seq<Segment>

  /** Path.getFileName(): the last name element. */
  function FileName(p: Path): Segment
    requires p != []
  {
    p[|p| - 1]
  }

  /** Path.getParent(): null for the empty path and for a one-element relative path. */
  function Parent(p: Path): (r: Option<Path>)
    ensures r.Some? <==> |p| > 1
    ensures r.Some? ==> r.value + [FileName(p)] == p
  {
    if |p| > 1 then Some(p[..|p| - 1]) else None
  }

  /** The number of leading characters of s before the first separator. */
  function NameLength(s: string): (n: nat)
    ensures n <= |s|
    ensures forall i :: 0 <= i < n ==> s[i] != Separator
    ensures n < |s| ==> s[n] == Separator
  {
    if s == [] || s[0] == Separator then 0 else 1 + NameLength(s[1..])
  }

  /** Parsing a path string: split at every separator, dropping the empty name elements that
      repeated, leading or trailing separators leave (so "a//b/" parses as "a/b"). */
  function ParsePath(s: string): Path
    decreases |s|
  {
    if s == [] then []
    else if s[0] == Separator then ParsePath(s[1..])
    else
      var n := NameLength(s);
      assert Separator !in s[..n];
      [s[..n]] + ParsePath(s[n..])
  }

  /** Path.toString(): the name elements joined by the separator. */
  function Render(p: Path): string
  {
    if p == [] then ""
    else if |p| == 1 then p[0]
    else p[0] + [Separator] + Render(p[1..])
  }

  /** One step of FileSystem.getPath(first, more...): a non-empty segment is appended,
      preceded by a separator unless nothing has been written yet. */
  function AppendName(acc: string, segment: string): string
  {
    if segment == [] then acc
    else if acc == [] then segment
    else acc + [Separator] + segment
  }

  function JoinNames(acc: string, more: seq<string>): string
    decreases |more|
  {
    if more == [] then acc else JoinNames(AppendName(acc, more[0]), more[1..])
  }

  /** FileSystem.getPath(first, more...): join the strings, then parse the result. */
  function GetPath(first: string, more: seq<string>): Path
  {
    ParsePath(JoinNames(first, more))
  }

  /** Every string parsed on its own, the name elements concatenated. */
  function ParseEach(names: seq<string>): Path
  {
    if names == [] then [] else ParsePath(names[0]) + ParseEach(names[1..])
  }

  lemma NameLengthOfJoin(a: string, b: string)
    requires Separator !in a
    requires b == [] || b[0] == Separator
    ensures NameLength(a + b) == |a|
  {
    if a != [] {
      assert (a + b)[1..] == a[1..] + b;
      NameLengthOfJoin(a[1..], b);
    }
  }

  /** Rendering a path and parsing the string gives the path back. */
  lemma {:induction false} ParseRender(p: Path)
    ensures ParsePath(Render(p)) == p
  {
    if |p| == 1 {
      NameLengthOfJoin(p[0], "");
      assert p[0][..|p[0]|] == p[0];
    } else if |p| > 1 {
      var s := p[0] + [Separator] + Render(p[1..]);
      NameLengthOfJoin(p[0], [Separator] + Render(p[1..]));
      assert s[..|p[0]|] == p[0];
      assert s[|p[0]|..] == [Separator] + Render(p[1..]);
      assert s[|p[0]|..][1..] == Render(p[1..]);
      ParseRender(p[1..]);
    }
  }

  /** A separator between two strings splits their parses apart. */
  lemma {:induction false} ParseAroundSeparator(a: string, b: string)
    ensures ParsePath(a + [Separator] + b) == ParsePath(a) + ParsePath(b)
    decreases |a|
  {
    var s := a + [Separator] + b;
    if a == [] {
      assert s[1..] == b;
    } else if a[0] == Separator {
      assert s[1..] == a[1..] + [Separator] + b;
      ParseAroundSeparator(a[1..], b);
    } else {
      var n := NameLength(a);
      if n < |a| {
        NameLengthOfJoin(a[..n], a[n..] + [Separator] + b);
        assert s == a[..n] + (a[n..] + [Separator] + b);
        NameLengthOfJoin(a[..n], a[n..]);
        assert a == a[..n] + a[n..];
      } else {
        NameLengthOfJoin(a, [Separator] + b);
        assert s == a + ([Separator] + b);
      }
      assert NameLength(s) == n;
      assert s[..n] == a[..n];
      assert s[n..] == a[n..] + [Separator] + b;
      ParseAroundSeparator(a[n..], b);
    }
  }

  lemma {:induction false} JoinNamesComponents(acc: string, more: seq<string>)
    ensures ParsePath(JoinNames(acc, more)) == ParsePath(acc) + ParseEach(more)
    decreases |more|
  {
    if more != [] {
      var next := AppendName(acc, more[0]);
      if more[0] != [] && acc != [] {
        ParseAroundSeparator(acc, more[0]);
      }
      assert ParsePath(next) == ParsePath(acc) + ParsePath(more[0]);
      JoinNamesComponents(next, more[1..]);
    }
  }

  /** getPath(first, more...) denotes the name elements of every argument, in order: joining
      the strings first and parsing once is the same as parsing each string on its own. */
  lemma GetPathComponents(first: string, more: seq<string>)
    ensures GetPath(first, more) == ParseEach([first] + more)
  {
    JoinNamesComponents(first, more);
    assert ([first] + more)[1..] == more;
  }
}
