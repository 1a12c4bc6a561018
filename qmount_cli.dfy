/** The `qmount` session: load the archive into `files`, apply the watched
    events through the handler, and rewrite the archive only if the
    session is dirty. */
module QmountCli {
  import opened Results
  import opened Seqs
  import opened Strings
  import opened Paths
  import opened VgioRecords
  import opened QmountHandlers

  /** One entry of the existing archive: its name and `pak_file.read(name)`. */
  datatype PakEntry = PakEntry(name: string, data: Bytes)

  /** An event as the observer reports it, before the handler's filter. */
  datatype WatchEvent = WatchEvent(event: FileEvent, isDirectory: bool)

  // The ignore patterns are "*" followed by "/.DS_Store" and by "/Thumbs.db";
  // "*" matches any text, slashes included, so a path matches when it ends
  // with the rest of the pattern.
  predicate MatchesIgnorePattern(p: string) {
    EndsWith(p, "/.DS_Store") || EndsWith(p, "/Thumbs.db")
  }

  /** Directory events are dropped; any other event is dropped only when
      every path it names matches an ignore pattern. */
  predicate Ignored(w: WatchEvent) {
    w.isDirectory ||
    (MatchesIgnorePattern(w.event.src) && (w.event.Moved? ==> MatchesIgnorePattern(w.event.dest)))
  }

  /** The events that reach the handler, in order. */
  function Delivered(ws: seq<WatchEvent>): (es: seq<FileEvent>)
    ensures |es| <= |ws|
    ensures forall i :: 0 <= i < |es| ==> exists j :: 0 <= j < |ws| && !Ignored(ws[j]) && ws[j].event == es[i]
  {
    if ws == [] then []
    else Delivered(ws[..|ws| - 1]) + (if Ignored(ws[|ws| - 1]) then [] else [ws[|ws| - 1].event])
  }

  /** Events on `.DS_Store` or `Thumbs.db` files and on directories never
      change the session. */
  lemma {:induction false} IgnoredEventsAreDropped(ws: seq<WatchEvent>)
    requires forall i :: 0 <= i < |ws| ==> Ignored(ws[i])
    ensures Delivered(ws) == []
  {
    if ws != [] {
      IgnoredEventsAreDropped(ws[..|ws| - 1]);
    }
  }

  /** `files[info.filename] = pak_file.read(name)` over the archive's entries. */
  function LoadFiles(entries: seq<PakEntry>): Files {
    if entries == [] then map[]
    else LoadFiles(entries[..|entries| - 1])[entries[|entries| - 1].name := Some(entries[|entries| - 1].data)]
  }

  /** The loaded map holds exactly the entry names. */
  lemma {:induction false} LoadFilesKeys(entries: seq<PakEntry>)
    ensures forall k :: k in LoadFiles(entries) <==> exists i :: 0 <= i < |entries| && entries[i].name == k
  {
    if entries != [] {
      var init := entries[..|entries| - 1];
      var last := entries[|entries| - 1];
      LoadFilesKeys(init);
      forall k | k in LoadFiles(entries)
        ensures exists i :: 0 <= i < |entries| && entries[i].name == k
      {
        if k != last.name {
          assert k in LoadFiles(init);
          var i :| 0 <= i < |init| && init[i].name == k;
          assert entries[i].name == k;
        }
      }
      forall k | exists i :: 0 <= i < |entries| && entries[i].name == k
        ensures k in LoadFiles(entries)
      {
        var i :| 0 <= i < |entries| && entries[i].name == k;
        if i < |init| { assert init[i].name == k; }
      }
    }
  }

  /** Each name is bound to the data of the last entry with that name. */
  lemma {:induction false} LoadFilesValues(entries: seq<PakEntry>, i: nat)
    requires i < |entries|
    requires forall j :: i < j < |entries| ==> entries[j].name != entries[i].name
    ensures entries[i].name in LoadFiles(entries)
    ensures LoadFiles(entries)[entries[i].name] == Some(entries[i].data)
  {
    var init := entries[..|entries| - 1];
    if i < |init| {
      assert init[i] == entries[i];
      LoadFilesValues(init, i);
    }
  }

  /** The session when the watch starts: an existing archive is loaded and
      clean; a missing one starts empty and dirty, so it is always written. */
  function InitialSession(archive: Option<seq<PakEntry>>): Session {
    match archive
    case Some(entries) => Session(LoadFiles(entries), false)
    case None => Session(map[], true)
  }

  /** Loads the starting session, entry by entry. */
  method Load(archive: Option<seq<PakEntry>>) returns (s: Session)
    ensures s == InitialSession(archive)
  {
    if archive.None? {
      return Session(map[], true);
    }
    var entries := archive.value;
    var files: Files := map[];
    var i := 0;
    while i < |entries|
      invariant 0 <= i <= |entries|
      invariant files == LoadFiles(entries[..i])
    {
      assert entries[..i + 1][..i] == entries[..i];
      files := files[entries[i].name := Some(entries[i].data)];
      i := i + 1;
    }
    assert entries[..i] == entries;
    return Session(files, false);
  }

  /** The session when the watch ends. */
  function FinalSession(archive: Option<seq<PakEntry>>, wd: string, ws: seq<WatchEvent>): Session
    requires forall i :: 0 <= i < |ws| ==> EventUnder(wd, ws[i].event)
  {
    FinalSessionFrom(InitialSession(archive), wd, ws)
  }

  lemma DeliveredUnder(wd: string, ws: seq<WatchEvent>)
    requires forall i :: 0 <= i < |ws| ==> EventUnder(wd, ws[i].event)
    ensures forall i :: 0 <= i < |Delivered(ws)| ==> EventUnder(wd, Delivered(ws)[i])
  {
  }

  /** After a session that saw at least one delivered event, or that began
      without an archive, the archive is rewritten. */
  lemma DirtyWhenChanged(archive: Option<seq<PakEntry>>, wd: string, ws: seq<WatchEvent>)
    requires forall i :: 0 <= i < |ws| ==> EventUnder(wd, ws[i].event)
    ensures FinalSession(archive, wd, ws).dirty <==> archive.None? || Delivered(ws) != []
  {
    DeliveredUnder(wd, ws);
    if Delivered(ws) == [] {
      assert FinalSession(archive, wd, ws) == InitialSession(archive);
    }
  }

  /** A rewritten archive: each key of `files` exactly once, with its contents. */
  predicate WritesExactly(entries: seq<(string, Option<Bytes>)>, files: Files) {
    (forall i :: 0 <= i < |entries| ==> entries[i].0 in files && entries[i].1 == files[entries[i].0]) &&
    (forall k :: k in files ==> exists i :: 0 <= i < |entries| && entries[i].0 == k) &&
    (forall i, j :: 0 <= i < j < |entries| ==> entries[i].0 != entries[j].0)
  }

  /** `for filename in files: pak_file.writestr(filename, files[filename])`. */
  method WriteOut(files: Files) returns (entries: seq<(string, Option<Bytes>)>)
    ensures WritesExactly(entries, files)
  {
    entries := [];
    var left := files.Keys;
    while left != {}
      invariant left <= files.Keys
      invariant forall i :: 0 <= i < |entries| ==> entries[i].0 in files && entries[i].0 !in left && entries[i].1 == files[entries[i].0]
      invariant forall k :: k in files && k !in left ==> exists i :: 0 <= i < |entries| && entries[i].0 == k
      invariant forall i, j :: 0 <= i < j < |entries| ==> entries[i].0 != entries[j].0
      decreases |left|
    {
      var k :| k in left;
      ghost var before := entries;
      entries := entries + [(k, files[k])];
      left := left - {k};
      assert forall i :: 0 <= i < |before| ==> entries[i] == before[i];
      assert entries[|before|].0 == k;
    }
  }

  /** How the watch ended: Ctrl+C, or the temporary directory vanished
      (an ejected volume). Both take the same shutdown path. */
  datatype Ending = Interrupted | TempDirectoryRemoved

  datatype MountResult = MountResult(written: Option<seq<(string, Option<Bytes>)>>, messages: seq<string>)

  const Banner := "Press Ctrl+C to save and quit"

  /** The closing message for the archive named `archive`. */
  function Closing(dirty: bool, archiveName: string): string {
    if dirty then "Updating changes to " + archiveName else "No changes detected to " + archiveName
  }

  /** The verbose lines of a watch: one per delivered event, in order,
      and none at all outside verbose mode. */
  function WatchLog(wd: string, verbose: bool, ws: seq<WatchEvent>): (log: seq<string>)
    requires forall i :: 0 <= i < |ws| ==> EventUnder(wd, ws[i].event)
    ensures !verbose ==> log == []
    ensures verbose ==> |log| == |Delivered(ws)|
  {
    if ws == [] then []
    else
      var w := ws[|ws| - 1];
      WatchLog(wd, verbose, ws[..|ws| - 1]) + (if !verbose || Ignored(w) then [] else [EventLine(wd, w.event)])
  }

  /** In verbose mode the i-th line is the message of the i-th delivered event. */
  lemma {:induction false} WatchLogLines(wd: string, ws: seq<WatchEvent>)
    requires forall i :: 0 <= i < |ws| ==> EventUnder(wd, ws[i].event)
    ensures forall i :: 0 <= i < |Delivered(ws)| ==>
              EventUnder(wd, Delivered(ws)[i]) && WatchLog(wd, true, ws)[i] == EventLine(wd, Delivered(ws)[i])
  {
    if ws != [] {
      var init := ws[..|ws| - 1];
      var w := ws[|ws| - 1];
      assert forall i :: 0 <= i < |init| ==> init[i] == ws[i];
      WatchLogLines(wd, init);
      if !Ignored(w) {
        assert Delivered(ws) == Delivered(init) + [w.event];
      } else {
        assert Delivered(ws) == Delivered(init) + [];
      }
    }
  }

  /** Delivers each observed event that is not ignored to the handler, in order. */
  method Watch(handler: TempPakFileHandler, events: seq<WatchEvent>)
    requires forall i :: 0 <= i < |events| ==> EventUnder(handler.workingDirectory, events[i].event)
    modifies handler
    ensures handler.State() == FinalSessionFrom(old(handler.State()), handler.workingDirectory, events)
    ensures handler.log == old(handler.log) + WatchLog(handler.workingDirectory, handler.verbose, events)
  {
    var wd, verbose := handler.workingDirectory, handler.verbose;
    ghost var initial, initialLog := handler.State(), handler.log;
    var i := 0;
    assert events[..0] == [] && initialLog + [] == initialLog;
    while i < |events|
      invariant 0 <= i <= |events|
      invariant WatchedUpTo(initial, initialLog, wd, verbose, events, i, handler.State(), handler.log)
    {
      WatchNext(handler, events, i, initial, initialLog);
      i := i + 1;
    }
    assert events[..i] == events;
  }

  /** One turn of the watch: the next observed event goes through the filter. */
  method WatchNext(handler: TempPakFileHandler, events: seq<WatchEvent>, i: nat,
                   ghost initial: Session, ghost initialLog: seq<string>)
    requires i < |events|
    requires forall j :: 0 <= j < |events| ==> EventUnder(handler.workingDirectory, events[j].event)
    requires WatchedUpTo(initial, initialLog, handler.workingDirectory, handler.verbose, events, i, handler.State(), handler.log)
    modifies handler
    ensures WatchedUpTo(initial, initialLog, handler.workingDirectory, handler.verbose, events, i + 1, handler.State(), handler.log)
  {
    ghost var s, log := handler.State(), handler.log;
    Deliver(handler, events[i]);
    WatchedStep(initial, initialLog, handler.workingDirectory, handler.verbose, events, i, s, log, handler.State(), handler.log);
  }

  /** The handler's session and output after the first i observed events. */
  ghost predicate WatchedUpTo(initial: Session, initialLog: seq<string>, wd: string, verbose: bool,
                              ws: seq<WatchEvent>, i: nat, s: Session, log: seq<string>)
    requires i <= |ws|
    requires forall j :: 0 <= j < |ws| ==> EventUnder(wd, ws[j].event)
  {
    s == FinalSessionFrom(initial, wd, ws[..i]) && log == initialLog + WatchLog(wd, verbose, ws[..i])
  }

  /** Delivering event i takes the session and output from the first i
      events to the first i + 1. */
  lemma WatchedStep(initial: Session, initialLog: seq<string>, wd: string, verbose: bool,
                    ws: seq<WatchEvent>, i: nat, s: Session, log: seq<string>, s': Session, log': seq<string>)
    requires i < |ws|
    requires forall j :: 0 <= j < |ws| ==> EventUnder(wd, ws[j].event)
    requires WatchedUpTo(initial, initialLog, wd, verbose, ws, i, s, log)
    requires s' == if Ignored(ws[i]) then s else Apply(wd, s, ws[i].event)
    requires log' == log + (if !verbose || Ignored(ws[i]) then [] else [EventLine(wd, ws[i].event)])
    ensures WatchedUpTo(initial, initialLog, wd, verbose, ws, i + 1, s', log')
  {
    WatchStep(initial, wd, ws, i);
    WatchLogStep(wd, verbose, ws, i);
    ConcatAssociative(initialLog, WatchLog(wd, verbose, ws[..i]),
                      if !verbose || Ignored(ws[i]) then [] else [EventLine(wd, ws[i].event)]);
  }

  /** The observer's filter in front of the handler: an ignored event is
      dropped, any other is dispatched. */
  method Deliver(handler: TempPakFileHandler, w: WatchEvent)
    requires EventUnder(handler.workingDirectory, w.event)
    modifies handler
    ensures handler.State() == if Ignored(w) then old(handler.State()) else Apply(handler.workingDirectory, old(handler.State()), w.event)
    ensures handler.log == old(handler.log) + (if !handler.verbose || Ignored(w) then [] else [EventLine(handler.workingDirectory, w.event)])
  {
    if !Ignored(w) {
      handler.Dispatch(w.event);
    } else {
      assert handler.log == old(handler.log) + [];
    }
  }

  /** One more observed event adds its line, unless it is ignored. */
  lemma WatchLogStep(wd: string, verbose: bool, ws: seq<WatchEvent>, i: nat)
    requires i < |ws|
    requires forall j :: 0 <= j < |ws| ==> EventUnder(wd, ws[j].event)
    ensures WatchLog(wd, verbose, ws[..i + 1]) ==
            WatchLog(wd, verbose, ws[..i]) + (if !verbose || Ignored(ws[i]) then [] else [EventLine(wd, ws[i].event)])
  {
    assert ws[..i + 1][..i] == ws[..i];
  }

  /** One more observed event: dropped when ignored, applied otherwise. */
  lemma WatchStep(s: Session, wd: string, ws: seq<WatchEvent>, i: nat)
    requires i < |ws|
    requires forall j :: 0 <= j < |ws| ==> EventUnder(wd, ws[j].event)
    ensures FinalSessionFrom(s, wd, ws[..i + 1]) ==
            if Ignored(ws[i]) then FinalSessionFrom(s, wd, ws[..i])
            else Apply(wd, FinalSessionFrom(s, wd, ws[..i]), ws[i].event)
  {
    var prefix := ws[..i];
    assert ws[..i + 1][..i] == prefix;
    DeliveredUnder(wd, prefix);
    DeliveredUnder(wd, ws[..i + 1]);
    if !Ignored(ws[i]) {
      assert Delivered(ws[..i + 1]) == Delivered(prefix) + [ws[i].event];
      ApplyAllSnoc(wd, s, Delivered(prefix), ws[i].event);
    } else {
      assert Delivered(ws[..i + 1]) == Delivered(prefix) + [];
      assert Delivered(prefix) + [] == Delivered(prefix);
    }
  }

  lemma ApplyAllSnoc(wd: string, s: Session, es: seq<FileEvent>, e: FileEvent)
    requires forall i :: 0 <= i < |es| ==> EventUnder(wd, es[i])
    requires EventUnder(wd, e)
    ensures ApplyAll(wd, s, es + [e]) == Apply(wd, ApplyAll(wd, s, es), e)
  {
    assert (es + [e])[..|es|] == es;
  }

  /** The session after the events, from a given starting session. */
  function FinalSessionFrom(s: Session, wd: string, ws: seq<WatchEvent>): Session
    requires forall i :: 0 <= i < |ws| ==> EventUnder(wd, ws[i].event)
  {
    DeliveredUnder(wd, ws);
    ApplyAll(wd, s, Delivered(ws))
  }

  /** A whole session of `qmount file`: `archive` is the existing archive's
      entries (None when the file does not exist), `events` what the
      observer reports in order; however the watch ends, the archive is
      rewritten iff the session is dirty, with exactly the final `files`. */
  method Mount(file: string, archive: Option<seq<PakEntry>>, tempDirectory: string,
               events: seq<WatchEvent>, ending: Ending, verbose: bool) returns (r: MountResult)
    requires forall i :: 0 <= i < |events| ==> EventUnder(tempDirectory, events[i].event)
    ensures var s := FinalSession(archive, tempDirectory, events);
            (r.written.Some? <==> s.dirty) &&
            (r.written.Some? ==> WritesExactly(r.written.value, s.files))
    ensures r.messages == [Banner] + WatchLog(tempDirectory, verbose, events) + [""] +
                          [Closing(FinalSession(archive, tempDirectory, events).dirty, Basename(file))]
  {
    var archiveName := Basename(file);
    var initial := Load(archive);
    var handler := new TempPakFileHandler(initial.dirty, tempDirectory, initial.files, verbose);
    Watch(handler, events);
    assert handler.log == WatchLog(tempDirectory, verbose, events);
    assert handler.State() == FinalSession(archive, tempDirectory, events);
    var messages := [Banner] + handler.log + [""] + [Closing(handler.dirty, archiveName)];
    if handler.dirty {
      var entries := WriteOut(handler.files);
      r := MountResult(Some(entries), messages);
    } else {
      r := MountResult(None, messages);
    }
  }
}
