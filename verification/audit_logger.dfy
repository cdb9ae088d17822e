/** `AuditLogger`: the object that records, rotates and verifies. The directory is a pair of fields. */
module AuditLogging {
  import opened Collections
  import opened AuditChain
  import opened AuditRotation

  class AuditLogger {
    const settings: Settings
    var current: Option<Lines>
    var rotated: Archive
    var prevHash: string
    ghost var history: Lines
    ghost var backups: nat

    ghost function State(): Log
      reads this
    {
      Log(Disk(current, rotated), prevHash)
    }

    ghost predicate Valid()
      reads this
    {
      Faithful(settings.codec) && Consistent(settings, State(), history, backups)
    }

    /** A logger on any directory takes its head from what it finds there. */
    constructor (settings: Settings, current: Option<Lines>, rotated: Archive)
      ensures this.settings == settings
      ensures State() == AuditRotation.Restart(settings, Log(Disk(current, rotated), ""))
      ensures Faithful(settings.codec) && current.None? && rotated == map[] ==>
                Valid() && State() == FRESH && history == []
    {
      this.settings := settings;
      this.current, this.rotated, this.prevHash := current, rotated, "";
      this.history, this.backups := [], 0;
      new;
      this.prevHash := ReadLastHash();
    }

    /** What constructing a new logger on the same directory does to the head: on a directory that the log alone has
        written it stays what it was. */
    method Restart()
      modifies `prevHash
      ensures State() == AuditRotation.Restart(settings, old(State()))
      ensures old(Valid()) ==> Valid() && State() == old(State())
    {
      if Valid() { RestartRecoversHead(settings, State(), history, backups); }
      prevHash := ReadLastHash();
    }

    /** Records on any directory; a consistent one stays consistent. */
    method Record(fields: Fields) returns (event: Event)
      modifies this
      ensures event == Event(fields, old(prevHash))
      ensures State() == AuditRotation.Record(settings, old(State()), fields)
      ensures history == old(history) + [settings.codec.render(event)]
      ensures old(Valid()) ==> Valid()
    {
      hide Consistent, Faithful;
      ghost var m := backups;
      if Valid() { m := RecordKeepsConsistent(settings, State(), history, backups, fields); }
      event := Event(fields, prevHash);
      var line := settings.codec.render(event);
      AppendLine(line);
      prevHash := settings.codec.hash(line);
      history := history + [line];
      backups := m;
    }

    method AppendLine(line: string)
      modifies `current, `rotated
      ensures Disk(current, rotated) == Append(settings, old(Disk(current, rotated)), line)
    {
      var lines: Lines := [];
      if current.Some? {
        var size := FileSize(settings.codec, current.value);
        if size >= settings.maxBytes {
          Rotate();
        }
        lines := current.value;
      }
      current := Some(lines + [line]);
    }

    method Rotate()
      requires current.Some?
      modifies `current, `rotated
      ensures Disk(current, rotated) == AuditRotation.Rotate(old(Disk(current, rotated)), settings.rotateCount)
    {
      rotated := ShiftBackups(rotated, settings.rotateCount);
      rotated := rotated[1 := current.value];
      current := Some([]);
    }

    method ReadLastHash() returns (h: string)
      ensures h == AuditRotation.ReadLastHash(settings.codec, current)
    {
      if current.None? { return ""; }
      var lastLine := "";
      for i := 0 to |current.value|
        invariant lastLine == LastEntry(current.value[..i])
      {
        assert current.value[..i + 1][..i] == current.value[..i];
        if current.value[i] != "" {
          lastLine := current.value[i];
        }
      }
      assert current.value[..|current.value|] == current.value;
      if lastLine == "" || (settings.codec.prevOf(lastLine).None? && !settings.codec.scalar(lastLine)) { return ""; }
      h := settings.codec.hash(lastLine);
    }

    /** One turn of the verifier's loop. */
    method CheckLine(line: string, num: nat, expectedPrev: string) returns (found: seq<Violation>, next: string)
      ensures found == Report(settings.codec, line, num, expectedPrev)
      ensures next == NextExpected(settings.codec, line, expectedPrev)
    {
      found, next := [], expectedPrev;
      if line == "" { return; }
      var recordedPrev := settings.codec.prevOf(line);
      if recordedPrev.None? {
        found := [InvalidJson(num)];
        return;
      }
      if num > 1 && recordedPrev.value != expectedPrev {
        found := [Mismatch(num, expectedPrev, recordedPrev.value)];
      }
      next := settings.codec.hash(line);
    }

    /** The verifier, on any file. An empty report means an intact chain, and the other way round; `None` stands for the
        error that a JSON line raises when it is no object. */
    method VerifyChain(file: Option<Lines>) returns (report: Option<seq<Violation>>)
      ensures file.None? ==> report == Some([NotFound])
      ensures file.Some? ==>
                report == if exists l :: l in file.value && Raises(settings.codec, l) then None
                          else Some(Violations(settings.codec, file.value, 1, ""))
      ensures report == Some([]) <==> file.Some? && Intact(settings.codec, file.value)
    {
      hide Violations, Intact, Report, NextExpected;
      if file.None? { return Some([NotFound]); }
      var lines := file.value;
      VerifierIsExact(settings.codec, lines);
      var violations := [];
      var expectedPrev := "";
      assert lines[0..] == lines;
      for i := 0 to |lines|
        invariant forall k | 0 <= k < i :: !Raises(settings.codec, lines[k])
        invariant violations + Violations(settings.codec, lines[i..], i + 1, expectedPrev)
               == Violations(settings.codec, lines, 1, "")
      {
        if Raises(settings.codec, lines[i]) {
          RaisingIsNotIntact(settings.codec, lines, i);
          return None;
        }
        ViolationsAt(settings.codec, lines, i, expectedPrev);
        ghost var rest := Violations(settings.codec, lines[i..], i + 1, expectedPrev);
        var found, next := CheckLine(lines[i], i + 1, expectedPrev);
        ghost var rest' := Violations(settings.codec, lines[i + 1..], i + 2, next);
        assert violations + (found + rest') == (violations + found) + rest';
        violations, expectedPrev := violations + found, next;
      }
      assert lines[|lines|..] == [];
      NothingToReport(settings.codec, |lines| + 1, expectedPrev);
      assert violations == Violations(settings.codec, lines, 1, "");
      assert forall l | l in lines :: !Raises(settings.codec, l);
      return Some(violations);
    }
  }

  lemma RaisingIsNotIntact(c: Codec, lines: seq<string>, i: nat)
    requires i < |lines| && Raises(c, lines[i])
    ensures !Intact(c, lines)
  {
  }
}
