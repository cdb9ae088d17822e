/** `FileSink`: the same rotation as the audit log, written through a cached append handle. */
module AuditSinks {
  import opened Collections
  import opened AuditRotation

  /** A path names an open file; a handle goes on writing to the file that it was opened on. */
  type FileId = nat

  class FileSink {
    const settings: Settings
    var handle: Option<FileId>
    var named: Option<FileId>
    var contents: map<FileId, Lines>
    var rotated: Archive
    var nextId: FileId

    /** A cached handle always writes to the file that the path names. */
    ghost predicate Valid()
      reads this
    {
      && (handle.Some? ==> handle == named)
      && (named.Some? ==> named.value in contents)
      && (forall id | id in contents :: id < nextId)
    }

    ghost function Directory(): Disk
      reads this
      requires Valid()
    {
      Disk(if named.Some? then Some(contents[named.value]) else None, rotated)
    }

    constructor (settings: Settings)
      ensures Valid() && this.settings == settings && Directory() == Disk(None, map[])
    {
      this.settings := settings;
      handle, named, contents, rotated, nextId := None, None, map[], map[], 0;
    }

    /** Every line goes where the audit log's own append would put it, whether or not a handle was cached. */
    method WriteLine(line: string)
      requires Valid()
      modifies this
      ensures Valid() && Directory() == Append(settings, old(Directory()), line)
    {
      if named.Some? {
        var size := FileSize(settings.codec, contents[named.value]);
        if size >= settings.maxBytes {
          RotateFile();
        }
      }
      if handle.None? {
        Open();
      }
      contents := contents[handle.value := contents[handle.value] + [line]];
    }

    /** `open(path, "a")`: a missing file is created empty. */
    method Open()
      requires Valid() && handle.None?
      modifies this
      ensures Valid() && handle.Some? && rotated == old(rotated)
      ensures contents[handle.value] == if old(named).Some? then old(contents)[old(named).value] else []
    {
      if named.None? {
        named := Some(nextId);
        contents := contents[nextId := []];
        nextId := nextId + 1;
      }
      handle := named;
    }

    /** The handle is closed before the file is emptied, so the next write opens it again. */
    method RotateFile()
      requires Valid() && named.Some?
      modifies this
      ensures Valid() && handle.None? && named == old(named)
      ensures Directory() == Rotate(old(Directory()), settings.rotateCount)
    {
      rotated := ShiftBackups(rotated, settings.rotateCount);
      rotated := rotated[1 := contents[named.value]];
      handle := None;
      contents := contents[named.value := []];
    }

    method Stop()
      requires Valid()
      modifies this
      ensures Valid() && handle.None? && Directory() == old(Directory())
    {
      handle := None;
    }
  }
}
