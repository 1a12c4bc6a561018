/** The watchdog handler of a mounted PAK session (`TempPakFileHandler`):
    each file event updates the shared `files` map and sets the session's
    `dirty` flag. File contents at event time are part of the event. */
module QmountHandlers {
  import opened Results
  import opened Paths
  import opened VgioRecords

  /** The archive's working copy: relative path to contents. A move from a
      path the map does not hold binds the destination to None. */
  type Files = map<string, Option<Bytes>>

  /** A file event as the observer reports it, with absolute paths. */
  datatype FileEvent =
    | Modified(src: string, content: Bytes)
    | Created(src: string, content: Bytes)
    | Deleted(src: string)
    | Moved(src: string, dest: string)

  /** The event's paths all lie inside the watched directory. */
  predicate EventUnder(wd: string, e: FileEvent) {
    IsUnder(wd, e.src) && (e.Moved? ==> IsUnder(wd, e.dest))
  }

  /** The session state the handler shares with `main`. */
  datatype Session = Session(files: Files, dirty: bool)

  /** `files[rel] = content` for a modified or created file. */
  function Store(files: Files, rel: string, content: Bytes): (r: Files)
    ensures rel in r && r[rel] == Some(content)
    ensures forall k :: k != rel ==> (k in r <==> k in files)
    ensures forall k :: k != rel && k in files ==> r[k] == files[k]
  {
    files[rel := Some(content)]
  }

  /** `files.pop(rel, None)` for a deleted file. */
  function Remove(files: Files, rel: string): (r: Files)
    ensures rel !in r
    ensures forall k :: k != rel ==> (k in r <==> k in files)
    ensures forall k :: k != rel && k in files ==> r[k] == files[k]
    ensures rel !in files ==> r == files
  {
    files - {rel}
  }

  /** `files[dest] = files.pop(src, None)` for a moved file. */
  function Move(files: Files, src: string, dest: string): (r: Files)
    ensures dest in r && r[dest] == (if src in files then files[src] else None)
    ensures src != dest ==> src !in r
    ensures forall k :: k != src && k != dest ==> (k in r <==> k in files)
    ensures forall k :: k != src && k != dest && k in files ==> r[k] == files[k]
  {
    var moved := if src in files then files[src] else None;
    (files - {src})[dest := moved]
  }

  /** The effect of one event on the session. */
  function Apply(wd: string, s: Session, e: FileEvent): (r: Session)
    requires EventUnder(wd, e)
    ensures r.dirty
  {
    match e
    case Modified(src, content) => Session(Store(s.files, RelPath(wd, src), content), true)
    case Created(src, content) => Session(Store(s.files, RelPath(wd, src), content), true)
    case Deleted(src) => Session(Remove(s.files, RelPath(wd, src)), true)
    case Moved(src, dest) => Session(Move(s.files, RelPath(wd, src), RelPath(wd, dest)), true)
  }

  /** The events in order, starting from `s`. */
  function ApplyAll(wd: string, s: Session, es: seq<FileEvent>): (r: Session)
    requires forall i :: 0 <= i < |es| ==> EventUnder(wd, es[i])
    ensures es != [] ==> r.dirty
    ensures es == [] ==> r == s
    decreases |es|
  {
    if es == [] then s
    else
      var r := ApplyAll(wd, s, es[..|es| - 1]);
      Apply(wd, r, es[|es| - 1])
  }

  /** The absolute paths an event names. */
  function EventPaths(e: FileEvent): set<string> {
    if e.Moved? then {e.src, e.dest} else {e.src}
  }

  /** A modified file and a created file have the same effect. */
  lemma ModifiedIsCreated(wd: string, s: Session, p: string, content: Bytes)
    requires IsUnder(wd, p)
    ensures Apply(wd, s, Modified(p, content)) == Apply(wd, s, Created(p, content))
  {
  }

  /** Deleting a path the map does not hold leaves the map unchanged but
      still marks the session dirty. */
  lemma DeleteAbsent(wd: string, s: Session, p: string)
    requires IsUnder(wd, p) && RelPath(wd, p) !in s.files
    ensures Apply(wd, s, Deleted(p)) == Session(s.files, true)
  {
  }

  /** A move onto itself of a held path leaves the map unchanged. */
  lemma MoveOntoItself(wd: string, s: Session, p: string)
    requires IsUnder(wd, p) && RelPath(wd, p) in s.files
    ensures Apply(wd, s, Moved(p, p)) == Session(s.files, true)
  {
    var rel := RelPath(wd, p);
    var r := Move(s.files, rel, rel);
    assert forall k :: k in r <==> k in s.files;
  }

  /** Every key the event adds is an event path taken relative to the
      watched directory. */
  lemma NewKeysAreRelative(wd: string, s: Session, e: FileEvent, k: string)
    requires EventUnder(wd, e)
    requires k in Apply(wd, s, e).files && k !in s.files
    ensures wd + "/" + k in EventPaths(e)
  {
  }

  /** The verbose message `"{rel} {verb}"`, naming the event's source
      relative to the watched directory. */
  function Line(wd: string, src: string, verb: string): (line: string)
    requires IsUnder(wd, src)
    ensures |line| == |src| - |wd| + |verb|
    ensures wd + "/" + line[..|src| - |wd| - 1] == src
    ensures line[|src| - |wd| - 1..] == " " + verb
  {
    RelPath(wd, src) + " " + verb
  }

  /** The word each handler prints after the path. */
  function Verb(e: FileEvent): string {
    match e
    case Modified(_, _) => "modified"
    case Created(_, _) => "created"
    case Deleted(_) => "deleted"
    case Moved(_, _) => "moved"
  }

  /** The verbose message an event produces; a move names its source. */
  function EventLine(wd: string, e: FileEvent): (line: string)
    requires EventUnder(wd, e)
    ensures |line| == |e.src| - |wd| + |Verb(e)|
    ensures wd + "/" + line[..|e.src| - |wd| - 1] == e.src
    ensures line[|e.src| - |wd| - 1..] == " " + Verb(e)
  {
    Line(wd, e.src, Verb(e))
  }

  /** The handler object: `context["dirty"]` and `files` are its fields,
      which `main` reads back; `log` receives the verbose messages. */
  class TempPakFileHandler {
    const workingDirectory: string
    const verbose: bool
    var files: Files
    var dirty: bool
    var log: seq<string>

    function State(): Session
      reads this
    {
      Session(files, dirty)
    }

    constructor(dirty: bool, workingDirectory: string, files: Files, verbose: bool)
      ensures this.workingDirectory == workingDirectory && this.verbose == verbose
      ensures this.files == files && this.dirty == dirty && log == []
    {
      this.workingDirectory := workingDirectory;
      this.verbose := verbose;
      this.files := files;
      this.dirty := dirty;
      log := [];
    }

    /** The verbose line `"{rel} {verb}"`, written only in verbose mode. */
    method Say(src: string, verb: string)
      requires IsUnder(workingDirectory, src)
      modifies this`log
      ensures log == old(log) + (if verbose then [Line(workingDirectory, src, verb)] else [])
    {
      if verbose {
        log := log + [Line(workingDirectory, src, verb)];
      }
    }

    method OnModified(src: string, content: Bytes)
      requires IsUnder(workingDirectory, src)
      modifies this
      ensures State() == Apply(workingDirectory, old(State()), Modified(src, content))
      ensures log == old(log) + (if verbose then [Line(workingDirectory, src, "modified")] else [])
    {
      dirty := true;
      Say(src, "modified");
      var rel := RelPath(workingDirectory, src);
      files := files[rel := Some(content)];
    }

    method OnCreated(src: string, content: Bytes)
      requires IsUnder(workingDirectory, src)
      modifies this
      ensures State() == Apply(workingDirectory, old(State()), Created(src, content))
      ensures log == old(log) + (if verbose then [Line(workingDirectory, src, "created")] else [])
    {
      dirty := true;
      Say(src, "created");
      var rel := RelPath(workingDirectory, src);
      files := files[rel := Some(content)];
    }

    method OnDeleted(src: string)
      requires IsUnder(workingDirectory, src)
      modifies this
      ensures State() == Apply(workingDirectory, old(State()), Deleted(src))
      ensures log == old(log) + (if verbose then [Line(workingDirectory, src, "deleted")] else [])
    {
      dirty := true;
      Say(src, "deleted");
      var rel := RelPath(workingDirectory, src);
      files := files - {rel};
    }

    method OnMoved(src: string, dest: string)
      requires IsUnder(workingDirectory, src) && IsUnder(workingDirectory, dest)
      modifies this
      ensures State() == Apply(workingDirectory, old(State()), Moved(src, dest))
      ensures log == old(log) + (if verbose then [Line(workingDirectory, src, "moved")] else [])
    {
      dirty := true;
      Say(src, "moved");
      var relSrc := RelPath(workingDirectory, src);
      var relDest := RelPath(workingDirectory, dest);
      var moved := if relSrc in files then files[relSrc] else None;
      files := (files - {relSrc})[relDest := moved];
    }

    /** Routing of a delivered event to its handler by event type. */
    method Dispatch(e: FileEvent)
      requires EventUnder(workingDirectory, e)
      modifies this
      ensures State() == Apply(workingDirectory, old(State()), e)
      ensures log == old(log) + (if verbose then [EventLine(workingDirectory, e)] else [])
    {
      match e
      case Modified(src, content) => OnModified(src, content);
      case Created(src, content) => OnCreated(src, content);
      case Deleted(src) => OnDeleted(src);
      case Moved(src, dest) => OnMoved(src, dest);
    }
  }
}
