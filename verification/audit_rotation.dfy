/** Recording, size-triggered rotation and restart of the audit log, and what a directory of rotated files still
    proves. */
module AuditRotation {
  import opened Collections
  import opened AuditChain

  type Lines = seq<string>
  type Archive = map<int, Lines>

  /** The log directory: the current file, if it exists, and the numbered backups. */
  datatype Disk = Disk(current: Option<Lines>, rotated: Archive)

  datatype Settings = Settings(codec: Codec, maxBytes: int, rotateCount: int)

  // ---- rotation ----

  /** The shift loop, from backup `i` down to 1: an existing backup moves up by one, over whatever was there. */
  function Shift(rotated: Archive, i: int): Archive
    decreases i
  {
    if i <= 0 then rotated
    else if i in rotated then Shift(rotated[i + 1 := rotated[i]] - {i}, i - 1)
    else Shift(rotated, i - 1)
  }

  function Rotate(d: Disk, rotateCount: int): Disk
    requires d.current.Some?
  {
    Disk(Some([]), Shift(d.rotated, rotateCount - 1)[1 := d.current.value])
  }

  /** The loop that the log and the file sink share. */
  method ShiftBackups(rotated: Archive, rotateCount: int) returns (shifted: Archive)
    ensures shifted == Shift(rotated, rotateCount - 1)
  {
    shifted := rotated;
    var i := rotateCount - 1;
    while i > 0
      invariant Shift(shifted, i) == Shift(rotated, rotateCount - 1)
    {
      if i in shifted {
        shifted := shifted[i + 1 := shifted[i]] - {i};
      }
      i := i - 1;
    }
  }

  /** Rotation keeps the newest `rotate_count` backups, but never fewer than one. */
  function Capacity(rotateCount: int): nat {
    if rotateCount < 1 then 1 else rotateCount
  }

  /** Backups 1..m exist, and no others. */
  ghost predicate Numbered(rotated: Archive, m: nat) {
    forall k :: k in rotated <==> 1 <= k <= m
  }

  /** The effect of the loop on one backup number. */
  lemma {:induction false} ShiftMoves(rotated: Archive, i: int, k: int)
    requires i >= 0
    ensures k in Shift(rotated, i) <==>
              if 2 <= k <= i + 1 then k - 1 in rotated || (k == i + 1 && k in rotated)
              else k in rotated && !(1 <= k <= i)
    ensures k in Shift(rotated, i) ==>
              Shift(rotated, i)[k] == if 2 <= k <= i + 1 && k - 1 in rotated then rotated[k - 1] else rotated[k]
    decreases i
  {
    if i > 0 {
      var next := if i in rotated then rotated[i + 1 := rotated[i]] - {i} else rotated;
      ShiftMoves(next, i - 1, k);
    }
  }

  function Min(a: int, b: int): int { if a < b then a else b }

  /** Rotating numbered backups: the current file becomes backup 1, every backup moves up by one,
      and only a backup numbered beyond the capacity is lost. */
  lemma RotateNumbered(d: Disk, m: nat, rotateCount: int)
    requires d.current.Some? && Numbered(d.rotated, m) && m <= Capacity(rotateCount)
    ensures var r := Rotate(d, rotateCount); var m' := Min(m + 1, Capacity(rotateCount));
            && Numbered(r.rotated, m')
            && r.rotated[1] == d.current.value
            && (forall k | 2 <= k <= m' :: r.rotated[k] == d.rotated[k - 1])
  {
    var r := Rotate(d, rotateCount);
    var m' := Min(m + 1, Capacity(rotateCount));
    forall k ensures k in r.rotated <==> 1 <= k <= m'
      ensures 2 <= k <= m' ==> k in r.rotated && r.rotated[k] == d.rotated[k - 1]
    {
      if rotateCount > 1 { ShiftMoves(d.rotated, rotateCount - 1, k); }
    }
  }

  // ---- what is retained ----

  /** Backups m down to 1, oldest first. */
  ghost function Retained(rotated: Archive, m: nat): Lines
    requires forall k | 1 <= k <= m :: k in rotated
  {
    if m == 0 then [] else rotated[m] + Retained(rotated, m - 1)
  }

  lemma {:induction false} RetainedShifts(before: Archive, after: Archive, m: nat, cur: Lines)
    requires forall k | 1 <= k <= m :: k in before
    requires forall k | 1 <= k <= m + 1 :: k in after
    requires after[1] == cur && forall k | 2 <= k <= m + 1 :: after[k] == before[k - 1]
    ensures Retained(after, m + 1) == Retained(before, m) + cur
    decreases m
  {
    if m > 0 {
      RetainedShifts(before, after, m - 1, cur);
      assert after[m + 1] == before[m];
    } else {
      assert Retained(after, 0) == [];
    }
  }

  /** Everything still on disk, oldest line first. */
  ghost function OnDisk(d: Disk, m: nat): Lines
    requires Numbered(d.rotated, m)
  {
    Retained(d.rotated, m) + if d.current.Some? then d.current.value else []
  }

  /** Rotation keeps everything on disk until the capacity is reached; then it drops exactly the oldest backup. */
  lemma RotateOnDisk(d: Disk, m: nat, rotateCount: int)
    requires d.current.Some? && Numbered(d.rotated, m) && m <= Capacity(rotateCount)
    ensures var r := Rotate(d, rotateCount);
            if m < Capacity(rotateCount)
            then Numbered(r.rotated, m + 1) && OnDisk(r, m + 1) == OnDisk(d, m)
            else Numbered(r.rotated, m) && d.rotated[m] + OnDisk(r, m) == OnDisk(d, m)
  {
    var r := Rotate(d, rotateCount);
    RotateNumbered(d, m, rotateCount);
    if m < Capacity(rotateCount) {
      RetainedShifts(d.rotated, r.rotated, m, d.current.value);
    } else {
      RetainedShifts(d.rotated, r.rotated, m - 1, d.current.value);
      assert Retained(d.rotated, m) == d.rotated[m] + Retained(d.rotated, m - 1);
    }
  }

  // ---- recording and restarting ----

  function Size(c: Codec, lines: Lines): nat {
    if lines == [] then 0 else Size(c, lines[..|lines| - 1]) + c.size(lines[|lines| - 1])
  }

  method FileSize(c: Codec, lines: Lines) returns (size: nat)
    ensures size == Size(c, lines)
  {
    size := 0;
    for i := 0 to |lines|
      invariant size == Size(c, lines[..i])
    {
      assert lines[..i + 1][..i] == lines[..i];
      size := size + c.size(lines[i]);
    }
    assert lines[..|lines|] == lines;
  }

  /** The size of a file is that of all its lines. */
  lemma {:induction false} SizeAdds(c: Codec, a: Lines, b: Lines)
    ensures Size(c, a + b) == Size(c, a) + Size(c, b)
    decreases |b|
  {
    if b == [] {
      assert a + b == a;
    } else {
      assert (a + b)[..|a + b| - 1] == a + b[..|b| - 1];
      SizeAdds(c, a, b[..|b| - 1]);
    }
  }

  lemma SizeOfOne(c: Codec, line: string)
    ensures Size(c, []) == 0 && Size(c, [line]) == c.size(line)
  {
    assert [line][..0] == [];
  }

  /** What the rotation check before an append leaves. */
  function BeforeAppend(s: Settings, d: Disk): Disk {
    if d.current.Some? && Size(s.codec, d.current.value) >= s.maxBytes then Rotate(d, s.rotateCount) else d
  }

  function Append(s: Settings, d: Disk, line: string): Disk {
    var r := BeforeAppend(s, d);
    r.(current := Some((if r.current.Some? then r.current.value else []) + [line]))
  }

  /** A line goes behind the others while they are smaller than the limit, and otherwise starts a file of its own, the
      others being backup 1 from then on and every backup, up to the capacity, one number higher. */
  lemma AppendRotatesIff(s: Settings, d: Disk, m: nat, line: string)
    requires Numbered(d.rotated, m) && m <= Capacity(s.rotateCount)
    ensures var a := Append(s, d, line);
            if d.current.None? then a == Disk(Some([line]), d.rotated)
            else if Size(s.codec, d.current.value) < s.maxBytes
            then a == Disk(Some(d.current.value + [line]), d.rotated)
            else
              && a.current == Some([line])
              && 1 in a.rotated && a.rotated[1] == d.current.value
              && (forall k | 1 <= k <= m && k < Capacity(s.rotateCount) ::
                    k in d.rotated && k + 1 in a.rotated && a.rotated[k + 1] == d.rotated[k])
              && (forall k | k in a.rotated :: 1 <= k <= m + 1 && k <= Capacity(s.rotateCount))
  {
    hide Size, Shift;
    var none: Lines := [];
    assert none + [line] == [line];
    if d.current.Some? { RotateNumbered(d, m, s.rotateCount); }
  }

  function LastEntry(lines: Lines): string {
    if lines == [] then "" else if lines[|lines| - 1] != "" then lines[|lines| - 1] else LastEntry(lines[..|lines| - 1])
  }

  /** `_read_last_hash`: the hash of the last line that is not blank, if that line parses. */
  function ReadLastHash(c: Codec, current: Option<Lines>): string {
    var last := if current.Some? then LastEntry(current.value) else "";
    if last == "" || (c.prevOf(last).None? && !c.scalar(last)) then "" else c.hash(last)
  }

  /** A logger and its directory; `head` is the in-memory `_prev_hash`. */
  datatype Log = Log(disk: Disk, head: string)

  function LineFor(s: Settings, g: Log, f: Fields): string {
    s.codec.render(Event(f, g.head))
  }

  function Record(s: Settings, g: Log, f: Fields): Log {
    Log(Append(s, g.disk, LineFor(s, g, f)), s.codec.hash(LineFor(s, g, f)))
  }

  function Restart(s: Settings, g: Log): Log {
    g.(head := ReadLastHash(s.codec, g.disk.current))
  }

  /** Nothing recorded yet, no files. */
  const FRESH: Log := Log(Disk(None, map[]), "")

  /** `history` is every line ever recorded. It is linked from a first line without predecessor; the files on disk,
      read oldest first, are a suffix of it, all of it as long as the backups are below capacity;
      and the last recorded line is in the current file, whose hash is the head. */
  ghost predicate Consistent(s: Settings, g: Log, history: Lines, m: nat) {
    && Linked(s.codec, history)
    && (history != [] ==> s.codec.prevOf(history[0]) == Some(""))
    && g.head == (if history == [] then "" else s.codec.hash(history[|history| - 1]))
    && m <= Capacity(s.rotateCount) && Numbered(g.disk.rotated, m)
    && IsSuffix(OnDisk(g.disk, m), history)
    && (m < Capacity(s.rotateCount) ==> OnDisk(g.disk, m) == history)
    && (history != [] ==> g.disk.current.Some? && g.disk.current.value != [])
  }

  lemma SuffixSnoc(s: Lines, t: Lines, x: string)
    requires IsSuffix(s, t)
    ensures IsSuffix(s + [x], t + [x])
  {
    assert (t + [x])[|t| - |s|..] == t[|t| - |s|..] + [x];
  }

  lemma SuffixOfSuffix(a: Lines, s: Lines, t: Lines)
    requires IsSuffix(a + s, t)
    ensures IsSuffix(s, t)
  {
    assert t[|t| - |s|..] == t[|t| - |a + s|..][|a|..];
    assert (a + s)[|a|..] == s;
  }

  lemma NewLineLinks(s: Settings, g: Log, history: Lines, m: nat, f: Fields)
    requires Faithful(s.codec) && Consistent(s, g, history, m)
    ensures var h' := history + [LineFor(s, g, f)];
            && Linked(s.codec, h')
            && s.codec.prevOf(h'[0]) == Some("")
  {
    var line := LineFor(s, g, f);
    assert line == s.codec.render(Event(f, g.head)) && line != "";
    LinkedSnoc(s.codec, history, line);
    if history != [] { assert (history + [line])[0] == history[0]; }
  }

  lemma SuffixOfSelf(t: Lines)
    ensures IsSuffix(t, t)
  {
  }

  lemma RotationOnDisk(s: Settings, d: Disk, m: nat) returns (m': nat)
    requires Numbered(d.rotated, m) && m <= Capacity(s.rotateCount)
    ensures m' <= Capacity(s.rotateCount) && Numbered(BeforeAppend(s, d).rotated, m')
    ensures IsSuffix(OnDisk(BeforeAppend(s, d), m'), OnDisk(d, m))
    ensures m' < Capacity(s.rotateCount) ==>
              m < Capacity(s.rotateCount) && OnDisk(BeforeAppend(s, d), m') == OnDisk(d, m)
  {
    hide Retained, Shift, OnDisk, IsSuffix, Size;
    m' := m;
    SuffixOfSelf(OnDisk(d, m));
    if d.current.Some? && Size(s.codec, d.current.value) >= s.maxBytes {
      m' := Min(m + 1, Capacity(s.rotateCount));
      RotateOnDisk(d, m, s.rotateCount);
      if m == Capacity(s.rotateCount) {
        SuffixOfSelf(OnDisk(d, m));
        SuffixOfSuffix(d.rotated[m], OnDisk(Rotate(d, s.rotateCount), m'), OnDisk(d, m));
      }
    }
  }

  lemma AppendIs(s: Settings, d: Disk, line: string, m: nat)
    requires Numbered(BeforeAppend(s, d).rotated, m)
    ensures var a := Append(s, d, line);
            && Numbered(a.rotated, m) && a.current.Some? && a.current.value != []
            && OnDisk(a, m) == OnDisk(BeforeAppend(s, d), m) + [line]
  {
    hide Shift, Size;
  }

  lemma AppendOnDisk(s: Settings, d: Disk, line: string, m: nat) returns (m': nat)
    requires Numbered(d.rotated, m) && m <= Capacity(s.rotateCount)
    ensures m' <= Capacity(s.rotateCount)
    ensures var a := Append(s, d, line);
            && Numbered(a.rotated, m')
            && a.current.Some? && a.current.value != []
            && IsSuffix(OnDisk(a, m'), OnDisk(d, m) + [line])
            && (m' < Capacity(s.rotateCount) ==> m < Capacity(s.rotateCount) && OnDisk(a, m') == OnDisk(d, m) + [line])
  {
    hide Append, BeforeAppend, OnDisk, IsSuffix, Numbered;
    m' := RotationOnDisk(s, d, m);
    AppendIs(s, d, line, m');
    SuffixSnoc(OnDisk(BeforeAppend(s, d), m'), OnDisk(d, m), line);
  }

  lemma SuffixTransitive(a: Lines, b: Lines, t: Lines)
    requires IsSuffix(a, b) && IsSuffix(b, t)
    ensures IsSuffix(a, t)
  {
    assert b == b[..|b| - |a|] + a;
    SuffixOfSuffix(b[..|b| - |a|], a, t);
  }

  lemma RecordKeepsConsistent(s: Settings, g: Log, history: Lines, m: nat, f: Fields) returns (m': nat)
    requires Faithful(s.codec) && Consistent(s, g, history, m)
    ensures Consistent(s, Record(s, g, f), history + [LineFor(s, g, f)], m')
  {
    var line := LineFor(s, g, f);
    NewLineLinks(s, g, history, m, f);
    m' := AppendOnDisk(s, g.disk, line, m);
    SuffixSnoc(OnDisk(g.disk, m), history, line);
    SuffixTransitive(OnDisk(Append(s, g.disk, line), m'), OnDisk(g.disk, m) + [line], history + [line]);
  }

  lemma SuffixEndsAlike(s: Lines, t: Lines)
    requires IsSuffix(s, t) && s != []
    ensures t != [] && s[|s| - 1] == t[|t| - 1]
  {
    assert s[|s| - 1] == t[|t| - |s|..][|s| - 1];
  }

  /** A restart reads back exactly the head that the old process held. */
  lemma RestartRecoversHead(s: Settings, g: Log, history: Lines, m: nat)
    requires Consistent(s, g, history, m)
    ensures Restart(s, g) == g
  {
    if history == [] {
      var cur := OnDisk(g.disk, m);
      assert cur == [];
      if g.disk.current.Some? { assert g.disk.current.value == []; }
    } else {
      var cur := g.disk.current.value;
      SuffixEndsAlike(OnDisk(g.disk, m), history);
      assert cur[|cur| - 1] == history[|history| - 1];
      assert LastEntry(cur) == cur[|cur| - 1];
    }
  }

  /** ... and it needs the clean shutdown: stopped between truncating and appending, the logger forgets its head. */
  lemma InterruptedRotationForgetsHead(s: Settings, g: Log, history: Lines, m: nat)
    requires (forall t :: s.codec.hash(t) != "") && Faithful(s.codec)
    requires Consistent(s, g, history, m) && history != []
    ensures Restart(s, g.(disk := Rotate(g.disk, s.rotateCount))).head == "" != g.head
  {
    assert s.codec.hash(history[|history| - 1]) != "";
  }

  // ---- what the verifier says about the files ----

  /** A stretch of a linked history is linked, and verifies when read as a file of its own. */
  lemma StretchVerifies(c: Codec, older: Lines, piece: Lines, newer: Lines)
    requires Linked(c, older + (piece + newer))
    ensures Linked(c, piece)
    ensures Violations(c, piece, 1, "") == []
  {
    hide Linked, Violations;
    LinkedConcat(c, older, piece + newer);
    LinkedConcat(c, piece, newer);
    LinkedVerifies(c, piece);
  }

  lemma LinkedVerifies(c: Codec, piece: Lines)
    requires Linked(c, piece)
    ensures Violations(c, piece, 1, "") == []
  {
    SolidIntact(c, piece);
  }

  lemma SuffixSplits(s: Lines, t: Lines)
    requires IsSuffix(s, t)
    ensures t == t[..|t| - |s|] + (s + [])
  {
    assert t == t[..|t| - |s|] + t[|t| - |s|..];
  }

  lemma {:induction false} BackupSplits(rotated: Archive, m: nat, k: nat) returns (older: Lines, newer: Lines)
    requires (forall j | 1 <= j <= m :: j in rotated) && 1 <= k <= m
    ensures Retained(rotated, m) == older + (rotated[k] + newer)
    decreases m
  {
    if k == m {
      older, newer := [], Retained(rotated, m - 1);
    } else {
      older, newer := BackupSplits(rotated, m - 1, k);
      older := rotated[m] + older;
    }
  }

  lemma DiskIsSuffix(s: Settings, g: Log, history: Lines, m: nat)
    requires Consistent(s, g, history, m)
    ensures Numbered(g.disk.rotated, m) && Linked(s.codec, history) && IsSuffix(OnDisk(g.disk, m), history)
  {
  }

  lemma DiskVerifies(s: Settings, g: Log, history: Lines, m: nat)
    requires Consistent(s, g, history, m)
    ensures Numbered(g.disk.rotated, m)
    ensures Linked(s.codec, OnDisk(g.disk, m)) && Violations(s.codec, OnDisk(g.disk, m), 1, "") == []
  {
    hide *;
    DiskIsSuffix(s, g, history, m);
    SuffixSplits(OnDisk(g.disk, m), history);
    StretchVerifies(s.codec, history[..|history| - |OnDisk(g.disk, m)|], OnDisk(g.disk, m), []);
  }

  lemma OnDiskSplits(d: Disk, m: nat)
    requires Numbered(d.rotated, m)
    ensures d.current.Some? ==> OnDisk(d, m) == Retained(d.rotated, m) + (d.current.value + [])
    ensures OnDisk(d, m) == Retained(d.rotated, m) + if d.current.Some? then d.current.value else []
  {
  }

  lemma CurrentVerifies(s: Settings, g: Log, history: Lines, m: nat)
    requires Consistent(s, g, history, m) && g.disk.current.Some?
    ensures Violations(s.codec, g.disk.current.value, 1, "") == []
  {
    hide Consistent, Linked, Violations, OnDisk, Retained;
    DiskVerifies(s, g, history, m);
    OnDiskSplits(g.disk, m);
    StretchVerifies(s.codec, Retained(g.disk.rotated, m), g.disk.current.value, []);
  }

  lemma BackupVerifies(s: Settings, g: Log, history: Lines, m: nat, k: int)
    requires Consistent(s, g, history, m) && k in g.disk.rotated
    ensures Violations(s.codec, g.disk.rotated[k], 1, "") == []
  {
    hide Consistent, Linked, Violations, OnDisk, Retained;
    DiskVerifies(s, g, history, m);
    OnDiskSplits(g.disk, m);
    var older, newer := BackupSplits(g.disk.rotated, m, k);
    var cur := if g.disk.current.Some? then g.disk.current.value else [];
    assert OnDisk(g.disk, m) == older + (g.disk.rotated[k] + (newer + cur));
    StretchVerifies(s.codec, older, g.disk.rotated[k], newer + cur);
  }

  /** `verify_chain` reports nothing: not on the current file, not on any backup, and not on all of them
      put together, oldest first. */
  lemma EverythingVerifies(s: Settings, g: Log, history: Lines, m: nat)
    requires Consistent(s, g, history, m)
    ensures g.disk.current.Some? ==> Violations(s.codec, g.disk.current.value, 1, "") == []
    ensures forall k | k in g.disk.rotated :: Violations(s.codec, g.disk.rotated[k], 1, "") == []
    ensures Violations(s.codec, OnDisk(g.disk, m), 1, "") == []
  {
    DiskVerifies(s, g, history, m);
    if g.disk.current.Some? { CurrentVerifies(s, g, history, m); }
    forall k | k in g.disk.rotated ensures Violations(s.codec, g.disk.rotated[k], 1, "") == [] {
      BackupVerifies(s, g, history, m, k);
    }
  }

  // ---- a break that no single file shows ----

  lemma {:induction false} NewestBackup(rotated: Archive, m: nat) returns (older: Lines)
    requires m >= 1 && forall j | 1 <= j <= m :: j in rotated
    ensures Retained(rotated, m) == older + rotated[1]
    decreases m
  {
    if m == 1 {
      older := [];
      assert Retained(rotated, 0) == [];
    } else {
      older := NewestBackup(rotated, m - 1);
      older := rotated[m] + older;
    }
  }

  lemma NotLinkedFails(c: Codec, lines: Lines, line: string)
    requires Linked(c, lines) && lines != [] && line != "" && c.prevOf(line) != Some(c.hash(lines[|lines| - 1]))
    ensures Violations(c, lines + [line], 1, "") != []
  {
    hide Violations;
    LinkedSnoc(c, lines, line);
    SolidIntact(c, lines + [line]);
  }

  lemma FirstLineVerifies(c: Codec, line: string)
    requires line != "" && c.prevOf(line).Some?
    ensures Violations(c, [line], 1, "") == []
  {
    OneLinked(c, line);
    LinkedVerifies(c, [line]);
  }

  /** The disk after an interrupted rotation, a restart and one more record. */
  function AfterBreak(s: Settings, g: Log, f: Fields): Log
    requires g.disk.current.Some?
  {
    Record(s, Restart(s, g.(disk := Rotate(g.disk, s.rotateCount))), f)
  }

  lemma AfterBreakIs(s: Settings, g: Log, f: Fields)
    requires g.disk.current.Some? && s.maxBytes > 0
    ensures AfterBreak(s, g, f).disk
         == Disk(Some([s.codec.render(Event(f, ""))]), Rotate(g.disk, s.rotateCount).rotated)
  {
    assert [] + [s.codec.render(Event(f, ""))] == [s.codec.render(Event(f, ""))];
  }

  /** The lost head cannot be seen in any file: after the next record each of them still verifies on its own. Only all
      of them together, oldest first, show that the chain was cut. */
  lemma BreakIsUnseen(s: Settings, g: Log, history: Lines, m: nat, f: Fields) returns (m': nat)
    requires (forall t :: s.codec.hash(t) != "") && Faithful(s.codec)
    requires s.maxBytes > 0
    requires Consistent(s, g, history, m) && history != []
    ensures g.disk.current.Some?
    ensures var d := AfterBreak(s, g, f).disk;
            && d.current.Some? && Violations(s.codec, d.current.value, 1, "") == []
            && (forall k | k in d.rotated :: Violations(s.codec, d.rotated[k], 1, "") == [])
            && Numbered(d.rotated, m') && Violations(s.codec, OnDisk(d, m'), 1, "") != []
  {
    hide Linked, Violations, Retained, IsSuffix, Shift;
    var r := Rotate(g.disk, s.rotateCount);
    RotateNumbered(g.disk, m, s.rotateCount);
    m' := Min(m + 1, Capacity(s.rotateCount));
    AfterBreakIs(s, g, f);
    var line := s.codec.render(Event(f, ""));
    FirstLineVerifies(s.codec, line);
    forall k | k in r.rotated ensures Violations(s.codec, r.rotated[k], 1, "") == [] {
      if k == 1 { CurrentVerifies(s, g, history, m); } else { BackupVerifies(s, g, history, m, k - 1); }
    }
    BreakIsLinked(s, g, history, m, m');
    var older := NewestBackup(r.rotated, m');
    NotLinkedFails(s.codec, Retained(r.rotated, m'), line);
  }

  lemma BreakIsLinked(s: Settings, g: Log, history: Lines, m: nat, m': nat)
    requires Consistent(s, g, history, m) && g.disk.current.Some?
    requires m' == Min(m + 1, Capacity(s.rotateCount))
    ensures var r := Rotate(g.disk, s.rotateCount).rotated;
            Numbered(r, m') && Linked(s.codec, Retained(r, m'))
  {
    hide Linked, Violations, Retained, Shift;
    RotateNumbered(g.disk, m, s.rotateCount);
    RotateOnDisk(g.disk, m, s.rotateCount);
    DiskVerifies(s, g, history, m);
    var r := Rotate(g.disk, s.rotateCount);
    OnDiskSplits(r, m');
    assert OnDisk(r, m') == Retained(r.rotated, m');
    if m == Capacity(s.rotateCount) { LinkedConcat(s.codec, g.disk.rotated[m], OnDisk(r, m')); }
  }

  // ---- runs ----

  datatype Op = Recording(fields: Fields) | Restarting

  function Step(s: Settings, g: Log, op: Op): Log {
    match op
    case Recording(f) => Record(s, g, f)
    case Restarting => Restart(s, g)
  }

  function Run(s: Settings, g: Log, ops: seq<Op>): Log {
    if ops == [] then g else Step(s, Run(s, g, ops[..|ops| - 1]), ops[|ops| - 1])
  }

  /** Every line a run records, in order. */
  function Recorded(s: Settings, g: Log, ops: seq<Op>): Lines {
    if ops == [] then []
    else
      var init, last := ops[..|ops| - 1], ops[|ops| - 1];
      Recorded(s, g, init) + match last case Recording(f) => [LineFor(s, Run(s, g, init), f)] case Restarting => []
  }

  lemma {:induction false} RunIsConsistent(s: Settings, ops: seq<Op>) returns (m: nat)
    requires Faithful(s.codec)
    ensures Consistent(s, Run(s, FRESH, ops), Recorded(s, FRESH, ops), m)
    decreases |ops|
  {
    if ops == [] {
      m := 0;
    } else {
      var init := ops[..|ops| - 1];
      m := RunIsConsistent(s, init);
      var g, h := Run(s, FRESH, init), Recorded(s, FRESH, init);
      match ops[|ops| - 1]
      case Recording(f) => m := RecordKeepsConsistent(s, g, h, m, f);
      case Restarting =>
        RestartRecoversHead(s, g, h, m);
        assert h + [] == h;
    }
  }

  /** From an empty directory, after any sequence of records, rotations and clean restarts: the verifier reports nothing
      on any file, a restart would recover the head, and what is on disk, oldest first, is the end of all that was
      ever recorded; all of it while fewer backups exist than the capacity allows. */
  lemma RunsVerify(s: Settings, ops: seq<Op>)
    requires Faithful(s.codec)
    ensures var g := Run(s, FRESH, ops); var history := Recorded(s, FRESH, ops);
            && Restart(s, g) == g
            && (g.disk.current.Some? ==> Violations(s.codec, g.disk.current.value, 1, "") == [])
            && (forall k | k in g.disk.rotated :: Violations(s.codec, g.disk.rotated[k], 1, "") == [])
            && exists m: nat :: && Numbered(g.disk.rotated, m) && m <= Capacity(s.rotateCount)
                                && IsSuffix(OnDisk(g.disk, m), history)
                                && (m < Capacity(s.rotateCount) ==> OnDisk(g.disk, m) == history)
                                && Violations(s.codec, OnDisk(g.disk, m), 1, "") == []
  {
    var m := RunIsConsistent(s, ops);
    var g, history := Run(s, FRESH, ops), Recorded(s, FRESH, ops);
    RestartRecoversHead(s, g, history, m);
    EverythingVerifies(s, g, history, m);
  }

  // ---- how large the files get ----

  /** No backup is smaller than the limit, and without its last line the current file is. */
  ghost predicate Filled(s: Settings, d: Disk) {
    && (forall k | k in d.rotated :: Size(s.codec, d.rotated[k]) >= s.maxBytes)
    && (d.current.Some? && d.current.value != [] ==>
          Size(s.codec, d.current.value[..|d.current.value| - 1]) < s.maxBytes)
  }

  lemma {:induction false} ShiftOnlyMoves(rotated: Archive, i: int, k: int)
    requires k in Shift(rotated, i)
    ensures exists j :: j in rotated && rotated[j] == Shift(rotated, i)[k]
    decreases i
  {
    if i > 0 {
      if i in rotated {
        var moved := rotated[i + 1 := rotated[i]] - {i};
        ShiftOnlyMoves(moved, i - 1, k);
        var j :| j in moved && moved[j] == Shift(rotated, i)[k];
        assert j == i + 1 || rotated[j] == moved[j];
      } else {
        ShiftOnlyMoves(rotated, i - 1, k);
      }
    }
  }

  lemma AppendFills(s: Settings, d: Disk, line: string)
    requires s.maxBytes > 0 && Filled(s, d)
    ensures Filled(s, Append(s, d, line))
  {
    hide Size, Shift;
    SizeOfOne(s.codec, line);
    var a := Append(s, d, line);
    var cur := a.current.value;
    if d.current.Some? && Size(s.codec, d.current.value) >= s.maxBytes {
      assert cur == [line] && cur[..0] == [];
      var shifted := Shift(d.rotated, s.rotateCount - 1);
      forall k | k in a.rotated ensures Size(s.codec, a.rotated[k]) >= s.maxBytes {
        if k != 1 {
          ShiftOnlyMoves(d.rotated, s.rotateCount - 1, k);
        }
      }
    } else {
      assert cur[..|cur| - 1] == if d.current.Some? then d.current.value else [];
    }
  }

  lemma {:induction false} RunStaysFilled(s: Settings, ops: seq<Op>)
    requires s.maxBytes > 0
    ensures Filled(s, Run(s, FRESH, ops).disk)
    decreases |ops|
  {
    hide Size, Append, ReadLastHash, Filled;
    if ops == [] {
      NothingIsFilled(s);
    } else {
      var init := ops[..|ops| - 1];
      RunStaysFilled(s, init);
      var g := Run(s, FRESH, init);
      match ops[|ops| - 1]
      case Recording(f) => AppendFills(s, g.disk, LineFor(s, g, f));
      case Restarting =>
    }
  }

  /** A log rotates as soon as its file has reached the limit and not before: after any run every backup holds at least
      `maxBytes`, and the current file without its last line holds less. */
  lemma RunsFill(s: Settings, ops: seq<Op>)
    requires s.maxBytes > 0
    ensures var d := Run(s, FRESH, ops).disk;
            && (forall k | k in d.rotated :: Size(s.codec, d.rotated[k]) >= s.maxBytes)
            && (d.current.Some? && d.current.value != [] ==>
                  Size(s.codec, d.current.value[..|d.current.value| - 1]) < s.maxBytes)
  {
    hide Size, Run;
    RunStaysFilled(s, ops);
  }

  lemma NothingIsFilled(s: Settings)
    ensures Filled(s, FRESH.disk)
  {
  }
}
