/** The hash chain of `audit/logger.py`: what its verifier reports, and what a clean report is worth. */
module AuditChain {
  import opened Collections

  /** Every field of an audit event but its link. */
  datatype Fields = Fields(eventType: string, actor: string, detail: string, target: string,
                           metadata: map<string, string>, eventId: string, timestamp: string)

  datatype Event = Event(fields: Fields, prevHash: string)

  /** JSON and SHA-256, seen from outside. A log file is its lines, stripped of surrounding blanks; `prevOf` reads the
      `prev_hash` of a line that is a JSON object; `scalar` tells other JSON from text that is none. */
  datatype Codec = Codec(
    render: Event -> string,
    prevOf: string -> Option<string>,
    scalar: string -> bool,
    hash: string -> string,
    size: string -> nat)

  /** A rendered event is one non-empty line, and parsing it gives back the link it was rendered with. */
  ghost predicate Faithful(c: Codec) {
    forall e {:trigger c.render(e)} :: c.render(e) != "" && c.prevOf(c.render(e)) == Some(e.prevHash)
  }

  /** Hashes are never empty and never collide. */
  ghost predicate CollisionFree(c: Codec) {
    && (forall a {:trigger c.hash(a)} :: c.hash(a) != "")
    && (forall a, b {:trigger c.hash(a), c.hash(b)} :: c.hash(a) == c.hash(b) ==> a == b)
  }

  datatype Violation = NotFound | InvalidJson(line: nat) | Mismatch(line: nat, expected: string, got: string)

  /** What the verifier says of line number `num`, given the hash of the last good line: blank lines pass,
      and the link of line number 1 is not checked. */
  function Report(c: Codec, line: string, num: nat, expected: string): seq<Violation> {
    if line == "" then []
    else match c.prevOf(line)
      case None => [InvalidJson(num)]
      case Some(p) => if num > 1 && p != expected then [Mismatch(num, expected, p)] else []
  }

  /** A line on which reading the link raises: JSON, but no object. */
  predicate Raises(c: Codec, line: string) { line != "" && c.prevOf(line).None? && c.scalar(line) }

  /** The hash the next line should carry: blank and unparsable lines leave it alone. */
  function NextExpected(c: Codec, line: string, expected: string): string {
    if line == "" || c.prevOf(line).None? then expected else c.hash(line)
  }

  function Violations(c: Codec, lines: seq<string>, num: nat, expected: string): seq<Violation>
    decreases |lines|
  {
    if lines == [] then []
    else Report(c, lines[0], num, expected) + Violations(c, lines[1..], num + 1, NextExpected(c, lines[0], expected))
  }

  lemma NothingToReport(c: Codec, num: nat, expected: string)
    ensures Violations(c, [], num, expected) == []
  {
  }

  lemma ViolationsAt(c: Codec, lines: seq<string>, i: nat, expected: string)
    requires i < |lines|
    ensures Violations(c, lines[i..], i + 1, expected)
         == Report(c, lines[i], i + 1, expected)
            + Violations(c, lines[i + 1..], i + 2, NextExpected(c, lines[i], expected))
  {
    assert lines[i..][0] == lines[i] && lines[i..][1..] == lines[i + 1..];
  }

  // ---- what a clean report means ----

  /** The hash of the last line that is not blank, or nothing. */
  function LastHash(c: Codec, lines: seq<string>): string {
    if lines == [] then ""
    else if lines[|lines| - 1] != "" then c.hash(lines[|lines| - 1])
    else LastHash(c, lines[..|lines| - 1])
  }

  // ---- what the report says ----

  /** A line that carries a link. */
  predicate IsGood(c: Codec, line: string) { line != "" && c.prevOf(line).Some? }

  /** `h` is the hash of the closest good line above line `i`, or empty when there is none. */
  ghost predicate Expects(c: Codec, lines: seq<string>, i: nat, h: string)
    requires i <= |lines|
  {
    || (h == "" && forall k | 0 <= k < i :: !IsGood(c, lines[k]))
    || exists j | 0 <= j < i :: IsGood(c, lines[j]) && h == c.hash(lines[j])
                                && forall k | j < k < i :: !IsGood(c, lines[k])
  }

  /** What there is to say of line `i`, counted from 0: it is no JSON, or its link is not the hash that is expected. */
  ghost predicate Says(c: Codec, lines: seq<string>, i: nat, v: Violation)
    requires i < |lines|
  {
    lines[i] != "" &&
    match v
    case NotFound => false
    case InvalidJson(n) => n == i + 1 && c.prevOf(lines[i]).None?
    case Mismatch(n, expected, got) =>
      n == i + 1 && i > 0 && c.prevOf(lines[i]) == Some(got) && got != expected && Expects(c, lines, i, expected)
  }

  lemma ExpectsNext(c: Codec, lines: seq<string>, i: nat, h: string)
    requires i < |lines| && Expects(c, lines, i, h)
    ensures Expects(c, lines, i + 1, NextExpected(c, lines[i], h))
  {
  }

  lemma ExpectsOne(c: Codec, lines: seq<string>, i: nat, h: string, h': string)
    requires i <= |lines| && Expects(c, lines, i, h) && Expects(c, lines, i, h')
    ensures h == h'
  {
  }

  lemma {:induction false} ReportedFrom(c: Codec, lines: seq<string>, k: nat, h: string, v: Violation)
    requires k <= |lines| && Expects(c, lines, k, h)
    ensures v in Violations(c, lines[k..], k + 1, h) <==> exists i | k <= i < |lines| :: Says(c, lines, i, v)
    decreases |lines| - k
  {
    hide Violations, Expects;
    if k == |lines| {
      assert lines[k..] == [];
      NothingToReport(c, k + 1, h);
    } else {
      ViolationsAt(c, lines, k, h);
      ExpectsNext(c, lines, k, h);
      ReportedFrom(c, lines, k + 1, NextExpected(c, lines[k], h), v);
      if Says(c, lines, k, v) && v.Mismatch? { ExpectsOne(c, lines, k, h, v.expected); }
      assert v in Report(c, lines[k], k + 1, h) <==> Says(c, lines, k, v);
    }
  }

  lemma NothingExpected(c: Codec, lines: seq<string>)
    ensures Expects(c, lines, 0, "") && lines[0..] == lines
  {
  }

  /** What the verifier reports, entry by entry: the number of each line that is no JSON, and of each other line but the
      first whose link is not the hash of the closest good line above it, with both hashes. */
  lemma ReportedIff(c: Codec, lines: seq<string>, v: Violation)
    ensures v in Violations(c, lines, 1, "") <==> exists i | 0 <= i < |lines| :: Says(c, lines, i, v)
  {
    hide Violations, Expects, Says;
    NothingExpected(c, lines);
    ReportedFrom(c, lines, 0, "", v);
  }

  /** Every line that is not blank parses, and unless it is the first line of the file
      it carries the hash of the closest such line above it. */
  ghost predicate Intact(c: Codec, lines: seq<string>) {
    forall i {:trigger lines[i]} | 0 <= i < |lines| && lines[i] != "" ::
      c.prevOf(lines[i]).Some? && (i > 0 ==> c.prevOf(lines[i]).value == LastHash(c, lines[..i]))
  }

  ghost predicate IntactFrom(c: Codec, lines: seq<string>, from: nat) {
    forall i {:trigger lines[i]} | from <= i < |lines| && lines[i] != "" ::
      c.prevOf(lines[i]).Some? && (i > 0 ==> c.prevOf(lines[i]).value == LastHash(c, lines[..i]))
  }

  lemma {:induction false} VerifierFrom(c: Codec, lines: seq<string>, k: nat)
    requires k <= |lines|
    ensures Violations(c, lines[k..], k + 1, LastHash(c, lines[..k])) == [] <==> IntactFrom(c, lines, k)
    decreases |lines| - k
  {
    if k < |lines| {
      var line := lines[k];
      ViolationsAt(c, lines, k, LastHash(c, lines[..k]));
      assert lines[..k + 1][|lines[..k + 1]| - 1] == line && lines[..k + 1][..k] == lines[..k];
      VerifierFrom(c, lines, k + 1);
      assert IntactFrom(c, lines, k) <==>
        IntactFrom(c, lines, k + 1)
        && (line != "" ==> c.prevOf(line).Some? && (k > 0 ==> c.prevOf(line).value == LastHash(c, lines[..k])));
    }
  }

  /** The verifier reports nothing exactly on intact logs. */
  lemma VerifierIsExact(c: Codec, lines: seq<string>)
    ensures Violations(c, lines, 1, "") == [] <==> Intact(c, lines)
  {
    VerifierFrom(c, lines, 0);
    assert lines[0..] == lines;
  }

  // ---- chains of entries ----

  /** Consecutive entries, none of them blank, each carrying the hash of the one before. */
  ghost predicate Linked(c: Codec, es: seq<string>) {
    && (forall i | 0 <= i < |es| :: es[i] != "" && c.prevOf(es[i]).Some?)
    && (forall i | 0 < i < |es| :: c.prevOf(es[i]).value == c.hash(es[i - 1]))
  }

  function Entries(lines: seq<string>): seq<string> {
    if lines == [] then []
    else Entries(lines[..|lines| - 1]) + (if lines[|lines| - 1] == "" then [] else [lines[|lines| - 1]])
  }

  lemma {:induction false} LastHashIsLastEntry(c: Codec, lines: seq<string>)
    ensures forall e | e in Entries(lines) :: e != ""
    ensures LastHash(c, lines) == if Entries(lines) == [] then "" else c.hash(Entries(lines)[|Entries(lines)| - 1])
    decreases |lines|
  {
    if lines != [] { LastHashIsLastEntry(c, lines[..|lines| - 1]); }
  }

  lemma EntriesSnoc(init: seq<string>, last: string)
    ensures Entries(init + [last]) == Entries(init) + (if last == "" then [] else [last])
  {
    assert (init + [last])[..|init|] == init;
  }

  /** The entries of an intact log are linked. The log itself adds one thing: behind a blank first line,
      the first entry must claim to have no predecessor. */
  ghost predicate LinkedLog(c: Codec, lines: seq<string>) {
    && Linked(c, Entries(lines))
    && (lines != [] && lines[0] == "" && Entries(lines) != [] ==> c.prevOf(Entries(lines)[0]) == Some(""))
  }

  lemma LinkedLogSnoc(c: Codec, init: seq<string>, last: string)
    ensures LinkedLog(c, init + [last]) <==>
            && LinkedLog(c, init)
            && (last != "" ==> c.prevOf(last).Some?)
            && (last != "" && init != [] ==> c.prevOf(last).value == LastHash(c, init))
  {
    var es := Entries(init);
    EntriesSnoc(init, last);
    LastHashIsLastEntry(c, init);
    if last != "" { LinkedSnoc(c, es, last); }
    if init != [] && init[0] != "" { FirstIsEntry(init); }
    assert (init == [] ==> es == []) && (es == [] ==> Linked(c, es));
    hide Entries, Linked, LastHash;
    assert (es + [last])[0] == if es != [] then es[0] else last;
    assert (init + [last])[0] == if init != [] then init[0] else last;
    assert es + [] == es;
  }

  lemma {:induction false} IntactIffLinked(c: Codec, lines: seq<string>)
    ensures Intact(c, lines) <==> LinkedLog(c, lines)
    decreases |lines|
  {
    if lines == [] { return; }
    hide Intact, LinkedLog, LastHash;
    var init, last := lines[..|lines| - 1], lines[|lines| - 1];
    assert lines == init + [last];
    IntactIffLinked(c, init);
    IntactSnoc(c, init, last);
    LinkedLogSnoc(c, init, last);
  }

  lemma {:induction false} FirstIsEntry(lines: seq<string>)
    requires lines != [] && lines[0] != ""
    ensures Entries(lines) != [] && Entries(lines)[0] == lines[0]
    decreases |lines|
  {
    if |lines| > 1 { FirstIsEntry(lines[..|lines| - 1]); }
  }

  lemma IntactSnoc(c: Codec, init: seq<string>, last: string)
    ensures Intact(c, init + [last]) <==>
            && Intact(c, init)
            && (last != "" ==> c.prevOf(last).Some?)
            && (last != "" && init != [] ==> c.prevOf(last).value == LastHash(c, init))
  {
    var lines := init + [last];
    assert lines[..|init|] == init;
    forall i | 0 <= i < |init| ensures lines[i] == init[i] && lines[..i] == init[..i] {}
    if Intact(c, lines) {
      assert lines[|init|] == last;
      forall i | 0 <= i < |init| && init[i] != ""
        ensures c.prevOf(init[i]).Some? && (i > 0 ==> c.prevOf(init[i]).value == LastHash(c, init[..i]))
      {
        assert lines[i] == init[i];
      }
    }
  }

  lemma LinkedSnoc(c: Codec, es: seq<string>, e: string)
    requires e != ""
    ensures Linked(c, es + [e]) <==>
            Linked(c, es) && c.prevOf(e).Some? && (es != [] ==> c.prevOf(e).value == c.hash(es[|es| - 1]))
  {
    var fs := es + [e];
    assert fs[|es|] == e;
    assert forall i | 0 <= i < |es| :: fs[i] == es[i];
  }

  // ---- tamper evidence ----

  ghost predicate IsSuffix(s: seq<string>, t: seq<string>) {
    |s| <= |t| && t[|t| - |s|..] == s
  }

  lemma {:induction false} BackwardsEqual(c: Codec, es: seq<string>, fs: seq<string>, k: nat)
    requires CollisionFree(c) && Linked(c, es) && Linked(c, fs)
    requires k < |es| && k < |fs| && es[|es| - 1] == fs[|fs| - 1]
    ensures es[|es| - 1 - k] == fs[|fs| - 1 - k]
    decreases k
  {
    if k > 0 {
      BackwardsEqual(c, es, fs, k - 1);
      var e, f := es[|es| - k - 1], fs[|fs| - k - 1];
      assert c.hash(e) == c.prevOf(es[|es| - k]).value;
      assert c.hash(f) == c.prevOf(fs[|fs| - k]).value;
    }
  }

  lemma SameEndSameChain(c: Codec, es: seq<string>, fs: seq<string>)
    requires CollisionFree(c) && Linked(c, es) && Linked(c, fs) && |es| <= |fs|
    requires es != [] && es[|es| - 1] == fs[|fs| - 1]
    ensures IsSuffix(es, fs)
  {
    forall i | 0 <= i < |es| ensures fs[|fs| - |es|..][i] == es[i] {
      BackwardsEqual(c, es, fs, |es| - 1 - i);
    }
  }

  lemma CleanIsLinked(c: Codec, lines: seq<string>)
    requires Violations(c, lines, 1, "") == []
    ensures Linked(c, Entries(lines))
  {
    hide Violations, Intact;
    VerifierIsExact(c, lines);
    IntactIffLinked(c, lines);
  }

  /** The last entry vouches for everything before it: of two logs that verify and end in the same entry,
      the entries of the shorter are the end of the longer. */
  lemma CleanLogsWithSameEnd(c: Codec, a: seq<string>, b: seq<string>)
    requires (forall t :: c.hash(t) != "") && forall t, u :: c.hash(t) == c.hash(u) ==> t == u
    requires Violations(c, a, 1, "") == [] && Violations(c, b, 1, "") == []
    requires Entries(a) != [] && Entries(b) != [] && Entries(a)[|Entries(a)| - 1] == Entries(b)[|Entries(b)| - 1]
    ensures IsSuffix(Entries(a), Entries(b)) || IsSuffix(Entries(b), Entries(a))
  {
    hide Violations, Entries, IsSuffix, Linked;
    CleanIsLinked(c, a);
    CleanIsLinked(c, b);
    if |Entries(a)| <= |Entries(b)| {
      SameEndSameChain(c, Entries(a), Entries(b));
    } else {
      SameEndSameChain(c, Entries(b), Entries(a));
    }
  }

  lemma {:induction false} EntriesOfSolid(lines: seq<string>)
    requires forall i | 0 <= i < |lines| :: lines[i] != ""
    ensures Entries(lines) == lines
    decreases |lines|
  {
    if lines != [] {
      EntriesOfSolid(lines[..|lines| - 1]);
      assert lines == lines[..|lines| - 1] + [lines[|lines| - 1]];
    }
  }

  /** What must hold of a line for the chain through it to be unbroken. */
  lemma SolidIntact(c: Codec, lines: seq<string>)
    requires forall i | 0 <= i < |lines| :: lines[i] != ""
    ensures Violations(c, lines, 1, "") == [] <==> Linked(c, lines)
  {
    VerifierIsExact(c, lines);
    IntactIffLinked(c, lines);
    EntriesOfSolid(lines);
  }

  lemma {:induction false} EntriesConcat(a: seq<string>, b: seq<string>)
    ensures Entries(a + b) == Entries(a) + Entries(b)
    decreases |b|
  {
    hide Entries;
    if b == [] {
      NoEntries();
      assert a + b == a && Entries(a) + [] == Entries(a);
    } else {
      var init, last := b[..|b| - 1], b[|b| - 1];
      EntriesConcat(a, init);
      EntriesSnoc(a + init, last);
      EntriesSnoc(init, last);
      assert a + b == (a + init) + [last] && b == init + [last];
    }
  }

  lemma LinkedConcat(c: Codec, es: seq<string>, fs: seq<string>)
    ensures Linked(c, es + fs) <==>
            Linked(c, es) && Linked(c, fs)
            && (es != [] && fs != [] ==> c.prevOf(fs[0]).value == c.hash(es[|es| - 1]))
  {
    var all := es + fs;
    assert forall i | 0 <= i < |es| :: all[i] == es[i];
    assert forall i | 0 <= i < |fs| :: all[|es| + i] == fs[i];
    if Linked(c, all) {
      forall i | 0 < i < |fs| ensures c.prevOf(fs[i]).value == c.hash(fs[i - 1]) {
        assert all[|es| + i] == fs[i] && all[|es| + i - 1] == fs[i - 1];
      }
    }
  }

  lemma OneLinked(c: Codec, e: string)
    ensures Linked(c, [e]) <==> e != "" && c.prevOf(e).Some?
  {
    assert [e][0] == e;
  }

  /** A different entry in front of another breaks the link to it. */
  lemma SwappedEntry(c: Codec, before: seq<string>, l: string, x: string, after: seq<string>)
    requires CollisionFree(c) && Linked(c, before + ([l] + after)) && after != [] && l != x
    ensures !Linked(c, before + ([x] + after))
  {
    hide Linked;
    LinkedConcat(c, before, [l] + after);
    LinkedConcat(c, [l], after);
    LinkedConcat(c, before, [x] + after);
    LinkedConcat(c, [x], after);
  }

  lemma DroppedEntry(c: Codec, before: seq<string>, l: string, after: seq<string>)
    requires CollisionFree(c) && Linked(c, before + ([l] + after)) && after != []
    ensures c.prevOf(after[0]) == Some(c.hash(l))
    ensures before != [] ==> c.prevOf(l) == Some(c.hash(before[|before| - 1]))
    ensures Linked(c, before + after) <==> before == [] || before[|before| - 1] == l
  {
    LinkedConcat(c, before, [l] + after);
    LinkedConcat(c, [l], after);
    LinkedConcat(c, before, after);
    OneLinked(c, l);
    assert after[0] != "" && ([l] + after)[0] == l;
  }

  lemma AddedEntry(c: Codec, before: seq<string>, x: string, after: seq<string>)
    requires CollisionFree(c) && Linked(c, before + after) && after != [] && x != ""
    ensures c.prevOf(after[0]).Some?
    ensures before != [] ==>
              (Linked(c, before + ([x] + after)) <==> before[|before| - 1] == x && c.prevOf(x) == Some(c.hash(x)))
    ensures before == [] && c.prevOf(after[0]) == Some("") ==> !Linked(c, before + ([x] + after))
  {
    LinkedConcat(c, before, after);
    LinkedConcat(c, before, [x] + after);
    LinkedConcat(c, [x], after);
    OneLinked(c, x);
    assert after[0] != "" && ([x] + after)[0] == x;
  }

  /** A log split at one of its lines. */
  lemma SplitEntries(lines: seq<string>, i: nat, x: string)
    requires i < |lines|
    ensures lines[i := x] == lines[..i] + ([x] + lines[i + 1..])
    ensures Entries(lines[i := x])
         == Entries(lines[..i]) + ((if x == "" then [] else [x]) + Entries(lines[i + 1..]))
  {
    hide Entries;
    var a, b := lines[..i], lines[i + 1..];
    EntriesConcat(a, [x] + b);
    EntriesConcat([x], b);
    EntriesSnoc([], x);
    NoEntries();
    assert [] + [x] == [x];
  }

  lemma NoEntries()
    ensures Entries([]) == []
  {
  }

  /** A log with no entries in its first part begins with a blank line, if it has a first part. */
  lemma BlankStart(lines: seq<string>)
    requires Entries(lines) == []
    ensures lines != [] ==> lines[0] == ""
  {
    if lines != [] && lines[0] != "" { FirstIsEntry(lines); }
  }

  /** Trailing blank lines change nothing. */
  lemma TrailingBlanks(c: Codec, a: seq<string>, b: seq<string>)
    requires Entries(b) == [] && a != []
    ensures Intact(c, a + b) <==> Intact(c, a)
  {
    hide Intact, Entries;
    EntriesConcat(a, b);
    IntactIffLinked(c, a + b);
    IntactIffLinked(c, a);
    assert Entries(a + b) == Entries(a) && (a + b)[0] == a[0];
  }

  lemma ReplacedAtEnd(c: Codec, lines: seq<string>, i: nat, x: string)
    requires Intact(c, lines) && i < |lines| && Entries(lines[i + 1..]) == []
    ensures Intact(c, lines[i := x]) <==>
            (x != "" ==> c.prevOf(x).Some? && (i > 0 ==> c.prevOf(x).value == LastHash(c, lines[..i])))
  {
    hide Intact, Entries, LastHash;
    var a, b := lines[..i], lines[i + 1..];
    assert lines == (a + [lines[i]]) + b && lines[i := x] == (a + [x]) + b;
    TrailingBlanks(c, a + [lines[i]], b);
    TrailingBlanks(c, a + [x], b);
    IntactSnoc(c, a, lines[i]);
    IntactSnoc(c, a, x);
  }

  lemma ReplacedBefore(c: Codec, lines: seq<string>, i: nat, x: string)
    requires CollisionFree(c) && LinkedLog(c, lines)
    requires i < |lines| && x != lines[i] && Entries(lines[i + 1..]) != []
    ensures var before := Entries(lines[..i]); var y := if x == "" then lines[i] else x;
            LinkedLog(c, lines[i := x]) <==>
            (x == "" || lines[i] == "") && before != [] && before[|before| - 1] == y && c.prevOf(y) == Some(c.hash(y))
  {
    hide Linked, Entries;
    var before, after, l := Entries(lines[..i]), Entries(lines[i + 1..]), lines[i];
    SplitEntries(lines, i, l);
    SplitEntries(lines, i, x);
    assert lines[i := l] == lines;
    if before == [] { BlankStart(lines[..i]); } else { NoEntries(); assert i > 0; }
    assert i > 0 ==> lines[..i][0] == lines[0];
    assert before != [] ==> forall z: seq<string> :: (before + z)[0] == before[0];
    assert [] + after == after;
    if l != "" && x != "" {
      SwappedEntry(c, before, l, x, after);
    } else if x == "" {
      DroppedEntry(c, before, l, after);
      assert before == [] ==> before + after == after;
    } else {
      AddedEntry(c, before, x, after);
      assert before == [] ==> before + after == after && before + ([x] + after) == [x] + after;
    }
  }

  /** Exactly when overwriting a line of a verifying log goes unreported. Behind the last entry anything goes that is
      blank or links to the entry before it. In front of a later entry only a line that carries its own hash can be
      blanked, or slipped into a blank line, right behind its double; no entry can be changed into another. */
  lemma ReplacementIsReported(c: Codec, lines: seq<string>, i: nat, x: string)
    requires (forall t :: c.hash(t) != "") && forall t, u :: c.hash(t) == c.hash(u) ==> t == u
    requires Violations(c, lines, 1, "") == []
    requires i < |lines| && x != lines[i]
    ensures var before := Entries(lines[..i]); var y := if x == "" then lines[i] else x;
            Violations(c, lines[i := x], 1, "") == [] <==>
            if Entries(lines[i + 1..]) == []
            then x != "" ==> c.prevOf(x).Some? && (i > 0 ==> c.prevOf(x).value == LastHash(c, lines[..i]))
            else
              && (x == "" || lines[i] == "")
              && before != [] && before[|before| - 1] == y && c.prevOf(y) == Some(c.hash(y))
  {
    hide Violations, Intact, LinkedLog, Entries, LastHash;
    VerifierIsExact(c, lines);
    VerifierIsExact(c, lines[i := x]);
    IntactIffLinked(c, lines);
    IntactIffLinked(c, lines[i := x]);
    if Entries(lines[i + 1..]) == [] {
      ReplacedAtEnd(c, lines, i, x);
    } else {
      ReplacedBefore(c, lines, i, x);
    }
  }

  /** In a log without blank lines every change of a line other than the last is reported, but for blanking a line that
      repeats the one above it. */
  lemma SolidReplacementIsReported(c: Codec, lines: seq<string>, i: nat, x: string)
    requires (forall t :: c.hash(t) != "") && forall t, u :: c.hash(t) == c.hash(u) ==> t == u
    requires Violations(c, lines, 1, "") == []
    requires forall k | 0 <= k < |lines| :: lines[k] != ""
    requires i + 1 < |lines| && x != lines[i]
    ensures Violations(c, lines[i := x], 1, "") == [] <==> x == "" && i > 0 && lines[i - 1] == lines[i]
  {
    hide Violations;
    ReplacementIsReported(c, lines, i, x);
    EntriesOfSolid(lines[..i]);
    EntriesOfSolid(lines[i + 1..]);
    SolidIntact(c, lines);
  }

  /** A blank last line vouches for nothing: above it, any line that parses may replace the only entry. */
  lemma BlankEndHidesReplacement(c: Codec, l: string, x: string)
    requires c.prevOf(l).Some? && c.prevOf(x).Some?
    ensures Violations(c, [l, ""], 1, "") == [] && Violations(c, [l, ""][0 := x], 1, "") == []
  {
    VerifierIsExact(c, [l, ""]);
    VerifierIsExact(c, [x, ""]);
    assert [l, ""][0 := x] == [x, ""];
  }
}
