/** The string operations that the policy signer is made of: `split("\n")`, `"\n".join`, `strip` and `lstrip`. */
module PolicyLines {

  /** The characters `str.strip()` removes. */
  predicate IsSpace(c: char) {
    var n := c as int;
    9 <= n <= 13 || 28 <= n <= 32 || n == 0x85 || n == 0xA0 || n == 0x1680 || 0x2000 <= n <= 0x200A
    || n == 0x2028 || n == 0x2029 || n == 0x202F || n == 0x205F || n == 0x3000
  }

  /** Tab, the line and page breaks, the four separators, the space and the Unicode spaces, and no others. */
  lemma SpacesAre(c: char)
    ensures IsSpace(c) <==>
            c in {'\t', '\n', '\U{0B}', '\U{0C}', '\r', '\U{1C}', '\U{1D}', '\U{1E}', '\U{1F}', ' ', '\U{85}', '\U{A0}',
                  '\U{1680}', '\U{2000}', '\U{2001}', '\U{2002}', '\U{2003}', '\U{2004}', '\U{2005}', '\U{2006}',
                  '\U{2007}', '\U{2008}', '\U{2009}', '\U{200A}', '\U{2028}', '\U{2029}', '\U{202F}', '\U{205F}',
                  '\U{3000}'}
  {
  }

  function StripLeft(s: string): string {
    if s != "" && IsSpace(s[0]) then StripLeft(s[1..]) else s
  }

  function StripRight(s: string): string {
    if s != "" && IsSpace(s[|s| - 1]) then StripRight(s[..|s| - 1]) else s
  }

  function Strip(s: string): string { StripRight(StripLeft(s)) }

  /** `lstrip("# ")`. */
  function StripHashes(s: string): string {
    if s != "" && (s[0] == '#' || s[0] == ' ') then StripHashes(s[1..]) else s
  }

  /** Not empty, and no blank at either end. */
  predicate Tight(s: string) {
    s != "" && !IsSpace(s[0]) && !IsSpace(s[|s| - 1])
  }

  lemma StripTight(s: string)
    requires Tight(s)
    ensures Strip(s) == s
  {
  }

  lemma StripOneBefore(s: string)
    requires Tight(s)
    ensures Strip(" " + s) == s
  {
    var t := " " + s;
    assert IsSpace(' ') && t[0] == ' ' && t[1..] == s;
    assert StripLeft(t) == StripLeft(s) == s;
  }

  lemma StripOneAfter(s: string)
    requires Tight(s)
    ensures Strip(s + " ") == s
  {
    var t := s + " ";
    assert IsSpace(' ') && t[0] == s[0] && t[|t| - 1] == ' ' && t[..|t| - 1] == s;
    assert StripLeft(t) == t && StripRight(t) == StripRight(s) == s;
  }

  // ---- lines ----

  predicate OneLine(s: string) { '\n' !in s }

  function Split(s: string): (lines: seq<string>)
    ensures lines != []
  {
    if s == "" then [""]
    else
      var rest := Split(s[1..]);
      if s[0] == '\n' then [""] + rest else [[s[0]] + rest[0]] + rest[1..]
  }

  function Join(lines: seq<string>): string {
    if lines == [] then ""
    else if |lines| == 1 then lines[0]
    else lines[0] + "\n" + Join(lines[1..])
  }

  ghost predicate AllOneLine(lines: seq<string>) {
    forall l | l in lines :: OneLine(l)
  }

  lemma {:induction false} SplitLines(s: string)
    ensures AllOneLine(Split(s))
    decreases |s|
  {
    if s != "" {
      SplitLines(s[1..]);
      var rest := Split(s[1..]);
      assert rest[0] in rest;
    }
  }

  lemma {:induction false} SplitOneLine(s: string)
    requires OneLine(s)
    ensures Split(s) == [s]
    decreases |s|
  {
    if s != "" {
      assert s[0] in s;
      SplitOneLine(s[1..]);
      assert s == [s[0]] + s[1..];
    }
  }

  lemma SplitCons(c: char, s: string)
    ensures Split([c] + s) == if c == '\n' then [""] + Split(s) else [[c] + Split(s)[0]] + Split(s)[1..]
  {
    assert ([c] + s)[1..] == s;
  }

  lemma GrowFirst(c: char, x: seq<string>, y: seq<string>)
    requires x != []
    ensures [[c] + (x + y)[0]] + (x + y)[1..] == ([[c] + x[0]] + x[1..]) + y
  {
    assert (x + y)[1..] == x[1..] + y;
  }

  lemma Regroup(c: char, x: string, y: string, z: string)
    ensures ([c] + x) + y + z == [c] + (x + y + z)
  {
  }

  /** Splitting around a newline. */
  lemma {:induction false} SplitAt(a: string, b: string)
    ensures Split(a + "\n" + b) == Split(a) + Split(b)
    decreases |a|
  {
    hide Split;
    if a == "" {
      SplitCons('\n', b);
      SplitOneLine("");
      assert a + "\n" + b == ['\n'] + b;
    } else {
      var c, rest := a[0], a[1..];
      SplitAt(rest, b);
      SplitCons(c, rest + "\n" + b);
      SplitCons(c, rest);
      assert a == [c] + rest;
      Regroup(c, rest, "\n", b);
      if c == '\n' {
        assert [""] + (Split(rest) + Split(b)) == ([""] + Split(rest)) + Split(b);
      } else {
        GrowFirst(c, Split(rest), Split(b));
      }
    }
  }

  lemma {:induction false} JoinSplit(s: string)
    ensures Join(Split(s)) == s
    decreases |s|
  {
    if s != "" {
      JoinSplit(s[1..]);
      var rest := Split(s[1..]);
      assert s == [s[0]] + s[1..];
      if s[0] == '\n' {
        assert ([""] + rest)[1..] == rest;
      } else {
        JoinHead([s[0]], rest[0], rest[1..]);
        assert rest == [rest[0]] + rest[1..];
      }
    }
  }

  lemma JoinHead(p: string, head: string, tail: seq<string>)
    ensures Join([p + head] + tail) == p + Join([head] + tail)
  {
    if tail != [] {
      assert ([p + head] + tail)[1..] == tail && ([head] + tail)[1..] == tail;
      assert (p + head) + "\n" + Join(tail) == p + (head + "\n" + Join(tail));
    }
  }

  lemma {:induction false} SplitJoin(lines: seq<string>)
    requires lines != [] && AllOneLine(lines)
    ensures Split(Join(lines)) == lines
    decreases |lines|
  {
    assert lines[0] in lines;
    SplitOneLine(lines[0]);
    if |lines| > 1 {
      SplitJoin(lines[1..]);
      SplitAt(lines[0], Join(lines[1..]));
      assert lines == [lines[0]] + lines[1..];
    } else {
      assert lines == [lines[0]];
    }
  }

  /** A joined text with a final newline splits into the same lines and an empty one. */
  lemma SplitJoinNewline(lines: seq<string>)
    requires AllOneLine(lines)
    ensures Split(Join(lines) + "\n") == (if lines == [] then [""] else lines) + [""]
  {
    SplitAt(Join(lines), "");
    assert Join(lines) + "\n" + "" == Join(lines) + "\n";
    if lines != [] { SplitJoin(lines); }
  }

  // ---- what strip returns ----

  lemma {:induction false} StripLeftIsSuffix(s: string)
    ensures StripLeft(s) == "" || !IsSpace(StripLeft(s)[0])
    ensures forall c | c in StripLeft(s) :: c in s
    decreases |s|
  {
    if s != "" && IsSpace(s[0]) { StripLeftIsSuffix(s[1..]); }
  }

  lemma {:induction false} StripRightIsPrefix(s: string)
    ensures StripRight(s) == "" || (!IsSpace(StripRight(s)[|StripRight(s)| - 1]) && StripRight(s)[0] == s[0])
    ensures forall c | c in StripRight(s) :: c in s
    decreases |s|
  {
    if s != "" && IsSpace(s[|s| - 1]) { StripRightIsPrefix(s[..|s| - 1]); }
  }

  lemma StripIsTight(s: string)
    ensures Strip(s) == "" || Tight(Strip(s))
    ensures forall c | c in Strip(s) :: c in s
  {
    hide IsSpace;
    StripLeftIsSuffix(s);
    StripRightIsPrefix(StripLeft(s));
  }

  lemma {:induction false} StripHashesIsSuffix(s: string)
    ensures forall c | c in StripHashes(s) :: c in s
    decreases |s|
  {
    if s != "" && (s[0] == '#' || s[0] == ' ') { StripHashesIsSuffix(s[1..]); }
  }
}
