/** The task file `data/tasks.json`: startup initialisation, `readTasks` and
    `saveTasks`. The file system is reduced to the file's contents. */
module Storage {
  import opened Wrappers
  import opened Json

  /** Contents of the task file: `None` when the file does not exist,
      otherwise its full text. Whether reading an existing file succeeds is a
      separate input to each read, since a file that is present can still fail
      to be read. */
  type Disk = Option<string>

  /** Startup: when the task file is missing it is created holding the compact
      serialisation of `{}`; an existing file is left as it is. */
  function Initialize(codec: Codec, disk: Disk): (d: Disk)
    ensures d.Some?
    ensures disk.Some? ==> d == disk
    ensures disk.None? ==> d == Some(codec.stringify(EmptyObject))
  {
    if disk.None? then Some(codec.stringify(EmptyObject)) else disk
  }

  /** `readTasks`: the parsed contents of the file. `readOk` says whether
      reading the file succeeds. A missing file, a failed read and text that does
      not parse all degrade to `{}`; no error escapes. */
  function ReadTasks(codec: Codec, disk: Disk, readOk: bool): (v: Json)
    ensures readOk && disk.Some? && codec.parse(disk.value).Some? ==> Some(v) == codec.parse(disk.value)
    ensures !readOk || disk.None? || codec.parse(disk.value).None? ==> v == EmptyObject
  {
    match disk
    case None => EmptyObject
    case Some(text) => if readOk then codec.parse(text).GetOr(EmptyObject) else EmptyObject
  }

  /** `saveTasks`: overwrite the whole file with the indented serialisation of
      `tasks`. `writeOk` says whether the write succeeds; the boolean result is
      what `saveTasks` returns. */
  function SaveTasks(codec: Codec, disk: Disk, tasks: Json, writeOk: bool): (r: (Disk, bool))
    ensures r.1 == writeOk
    ensures writeOk ==> r.0 == Some(codec.pretty(tasks))
    ensures !writeOk ==> r.0 == disk
  {
    if writeOk then (Some(codec.pretty(tasks)), true) else (disk, false)
  }
}
