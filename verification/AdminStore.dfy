/** Processes that share admins.json: the stores they hold, and why no update is lost. internal/store/admins.go. */
module AdminStore {
  import opened Wrappers
  import opened Text
  import opened Lists
  import opened Files
  import opened Admins

  /** The file as a value. */
  datatype Disk = Disk(content: Content<Doc>, stamp: nat)

  /** One process's copy. */
  datatype Process = Process(list: seq<Admin>, loaded: Option<nat>, legacy: bool, filledIDs: nat)

  datatype Outcome = Outcome(process: Process, disk: Disk, error: Option<StoreError>)

  function StatOf(d: Disk): Option<nat> {
    if d.content.Missing? then None else Some(d.stamp)
  }

  /** What load makes of a process: everything replaced, or nothing. */
  ghost function Reloaded(p: Process, d: Disk): Process {
    match LoadOf(d.content)
    case None => p
    case Some(l) => Process(l.list, StatOf(d), l.legacy, l.filledIDs)
  }

  predicate LookDue(lastChecked: Option<int>, now: int) {
    lastChecked.None? || now - lastChecked.value >= RELOAD_RESOLUTION
  }

  /** The file is there and not as this process last read or wrote it. */
  predicate Moved(p: Process, d: Disk) {
    StatOf(d).Some? && StatOf(d) != p.loaded
  }

  /** What the throttled check makes of a process. */
  ghost function CheckedReload(p: Process, d: Disk, lastChecked: Option<int>, now: int): Process {
    if LookDue(lastChecked, now) && Moved(p, d) then Reloaded(p, d) else p
  }

  /** Swapping an edited list in: process and file both change, or neither does. */
  function Committed(p: Process, d: Disk, edited: Result<seq<Admin>, StoreError>, legacy: bool, works: bool): Outcome {
    if edited.Err? then Outcome(p, d, Some(edited.error))
    else if !MayWrite(StatOf(d), p.loaded) then Outcome(p, d, Some(ChangedOnDisk))
    else if !works then Outcome(p, d, Some(WriteFailed))
    else
      Outcome(Process(edited.value, Some(d.stamp + 1), legacy, p.filledIDs),
              Disk(Holds(Doc(ADMINS_VERSION, edited.value)), d.stamp + 1), None)
  }

  /** What an operation makes of a process and the file. */
  function Performed(p: Process, d: Disk, req: Request, works: bool): Outcome {
    if req.Migrate? && !p.legacy then Outcome(p, d, None)
    else Committed(p, d, Edited(p.list, req), p.legacy && !req.Migrate?, works)
  }

  // ---- one step of one process ----

  /** A process that has the file's stamp has its content, and one that never read a file has no list. */
  ghost predicate InStep(p: Process, d: Disk) {
    && WellFormed(p.list)
    && (p.loaded.None? ==> p.list == [])
    && (p.loaded.Some? ==> p.loaded.value <= d.stamp)
    && (p.loaded.Some? && p.loaded == StatOf(d) ==> LoadOf(d.content).Some? && LoadOf(d.content).value.list == p.list)
  }

  /** The file that the process read or wrote last has been removed. */
  predicate Lost(p: Process, d: Disk) {
    p.loaded.Some? && d.content.Missing?
  }

  ghost predicate Readable(d: Disk) {
    LoadOf(d.content).Some?
  }

  lemma LoadedIsWellFormed(content: Content<Doc>)
    requires LoadOf(content).Some?
    ensures WellFormed(LoadOf(content).value.list)
  {
  }

  lemma ReloadKeepsStep(p: Process, d: Disk)
    requires InStep(p, d)
    ensures InStep(Reloaded(p, d), d)
  {
    if Readable(d) {
      LoadedIsWellFormed(d.content);
    }
  }

  /** The operation wrote the file. */
  predicate Wrote(p: Process, d: Disk, req: Request, works: bool) {
    Performed(p, d, req, works).disk != d
  }

  lemma CommitRepliesTellTheTruth(p: Process, d: Disk, edited: Result<seq<Admin>, StoreError>, legacy: bool,
                                  works: bool)
    ensures var o := Committed(p, d, edited, legacy, works); o.error.None? <==> o.disk != d
  {
    assert Disk(d.content, d.stamp + 1) != d;
  }

  /** What a caller is told: success means that the file was written, or that there was nothing to migrate. */
  lemma RepliesTellTheTruth(p: Process, d: Disk, req: Request, works: bool)
    ensures Performed(p, d, req, works).error.None? <==> Wrote(p, d, req, works) || (req.Migrate? && !p.legacy)
  {
    CommitRepliesTellTheTruth(p, d, Edited(p.list, req), p.legacy && !req.Migrate?, works);
  }

  lemma CommitAppliesToFile(p: Process, d: Disk, edited: Result<seq<Admin>, StoreError>, legacy: bool, works: bool)
    requires InStep(p, d) && (edited.Ok? ==> WellFormed(edited.value))
    ensures var o := Committed(p, d, edited, legacy, works);
            && InStep(o.process, o.disk)
            && (o.error.Some? ==> o.process == p && o.disk == d)
            && (o.disk != d ==>
                  && edited.Ok? && (!Lost(p, d) ==> Readable(d) && LoadOf(d.content).value.list == p.list)
                  && o.disk == Disk(Holds(Doc(ADMINS_VERSION, edited.value)), d.stamp + 1)
                  && LoadOf(o.disk.content) == Some(Loaded(edited.value, false, 0)))
  {
    if edited.Ok? {
      WrittenIsReadable(edited.value);
    }
  }

  /** A write is one operation applied to the process's list, which is what was in the file immediately before unless
      that was removed under it; a refusal changes nothing. */
  lemma WriteAppliesToFile(p: Process, d: Disk, req: Request, works: bool)
    requires InStep(p, d) && WellDrawn(req)
    ensures var o := Performed(p, d, req, works);
            && InStep(o.process, o.disk)
            && (o.error.Some? ==> o.process == p && o.disk == d)
            && (Wrote(p, d, req, works) ==>
                  && (!Lost(p, d) ==> Readable(d) && LoadOf(d.content).value.list == p.list)
                  && Edited(p.list, req).Ok?
                  && o.disk == Disk(Holds(Doc(ADMINS_VERSION, Edited(p.list, req).value)), d.stamp + 1)
                  && LoadOf(o.disk.content) == Some(Loaded(Edited(p.list, req).value, false, 0)))
  {
    var edited := Edited(p.list, req);
    if edited.Ok? {
      EditsKeepWellFormed(p.list, req);
    }
    CommitAppliesToFile(p, d, edited, p.legacy && !req.Migrate?, works);
  }

  lemma WrittenIsReadable(list: seq<Admin>)
    requires WellFormed(list)
    ensures LoadOf(Holds(Doc(ADMINS_VERSION, list))) == Some(Loaded(list, false, 0))
  {
  }

  /** The file moves on: its stamp grows with its content. */
  ghost predicate MovesOn(d: Disk, d': Disk) {
    d' == d || d'.stamp > d.stamp
  }

  lemma WritesMoveOn(p: Process, d: Disk, edited: Result<seq<Admin>, StoreError>, legacy: bool, works: bool)
    ensures var d' := Committed(p, d, edited, legacy, works).disk; MovesOn(d, d') && (d'.content.Missing? ==> d' == d)
  {
  }

  /** Somebody else's write, an edit by hand, and the removal of the file leave a process fit to continue. */
  lemma OutsideChangesKeepStep(p: Process, d: Disk, d': Disk)
    requires InStep(p, d) && MovesOn(d, d')
    ensures InStep(p, d')
  {
  }

  /** Whatever one process writes, every other process stays fit to continue. */
  lemma OthersStayInStep(other: Process, d: Disk, p: Process, req: Request, works: bool)
    requires InStep(other, d)
    ensures InStep(other, Performed(p, d, req, works).disk)
    ensures !Lost(other, d) ==> !Lost(other, Performed(p, d, req, works).disk)
  {
    WritesMoveOn(p, d, Edited(p.list, req), p.legacy && !req.Migrate?, works);
    OutsideChangesKeepStep(other, d, Performed(p, d, req, works).disk);
  }

  /** A process that has the file's stamp can write the file, and then has its new stamp. */
  lemma UndisturbedWriteSucceeds(p: Process, d: Disk, req: Request)
    requires p.loaded == StatOf(d) && !req.Migrate? && Edited(p.list, req).Ok?
    ensures var o := Performed(p, d, req, true);
            o.error.None? && o.process.loaded == StatOf(o.disk) && o.process.list == Edited(p.list, req).value
  {
  }

  lemma ReadingTakesTheStamp(p: Process, d: Disk)
    requires Readable(d)
    ensures Reloaded(p, d).loaded == StatOf(d) && Reloaded(p, d).list == LoadOf(d.content).value.list
  {
  }

  /** Who has just read the file can write it, and write it again. */
  lemma UndisturbedWritesSucceed(p: Process, d: Disk, req: Request, next: Request)
    requires Readable(d) && !req.Migrate? && !next.Migrate? && Edited(LoadOf(d.content).value.list, req).Ok?
    requires Edited(Edited(LoadOf(d.content).value.list, req).value, next).Ok?
    ensures var o := Performed(Reloaded(p, d), d, req, true);
            o.error.None? && Performed(o.process, o.disk, next, true).error.None?
  {
    var q := Reloaded(p, d);
    ReadingTakesTheStamp(p, d);
    UndisturbedWriteSucceeds(q, d, req);
    UndisturbedWriteSucceeds(Performed(q, d, req, true).process, Performed(q, d, req, true).disk, next);
  }

  /** Who finds the file changed by somebody else is told so, and who fails to write it is told that; either way nothing
      changes. */
  lemma RefusedWritesSayWhy(p: Process, d: Disk, req: Request, works: bool)
    requires !req.Migrate? && Edited(p.list, req).Ok?
    ensures Moved(p, d) ==> Performed(p, d, req, works) == Outcome(p, d, Some(ChangedOnDisk))
    ensures !Moved(p, d) && !works ==> Performed(p, d, req, works) == Outcome(p, d, Some(WriteFailed))
  {
  }

  // ---- when an edit from outside is seen ----

  /** What looks at these times make of a process, and when it last looked. */
  ghost function Looked(p: Process, d: Disk, last: Option<int>, times: seq<int>): (Process, Option<int>)
    decreases |times|
  {
    if times == [] then (p, last)
    else
      Looked(CheckedReload(p, d, last, times[0]), d,
             if LookDue(last, times[0]) then Some(times[0]) else last, times[1..])
  }

  lemma {:induction false} LookingAgainChangesNothing(p: Process, d: Disk, last: Option<int>, times: seq<int>)
    requires !Moved(p, d)
    ensures Looked(p, d, last, times).0 == p
    decreases |times|
  {
    if times != [] {
      LookingAgainChangesNothing(p, d, if LookDue(last, times[0]) then Some(times[0]) else last, times[1..]);
    }
  }

  /** A file that has changed is read by the first look that comes a second or more after the last one, and by none that
      comes sooner. */
  lemma {:induction false} ChangeIsSeenAfterASecond(p: Process, d: Disk, last: int, times: seq<int>)
    requires Moved(p, d) && Readable(d)
    ensures Looked(p, d, Some(last), times).0
            == if exists i :: 0 <= i < |times| && times[i] >= last + 1_000_000_000
                 then Process(LoadOf(d.content).value.list, Some(d.stamp), LoadOf(d.content).value.legacy,
                              LoadOf(d.content).value.filledIDs)
               else p
    decreases |times|
  {
    if times != [] {
      if times[0] >= last + 1_000_000_000 {
        LookingAgainChangesNothing(Reloaded(p, d), d, Some(times[0]), times[1..]);
      } else {
        ChangeIsSeenAfterASecond(p, d, last, times[1..]);
        assert forall i :: 0 <= i < |times[1..]| ==> times[1..][i] == times[i + 1];
        if i :| 0 <= i < |times| && times[i] >= last + 1_000_000_000 {
          assert times[1..][i - 1] >= last + 1_000_000_000;
        }
      }
    }
  }

  /** The first look of a process reads a file it does not have yet. */
  lemma FirstLookReads(p: Process, d: Disk, now: int)
    requires Moved(p, d) && Readable(d)
    ensures CheckedReload(p, d, None, now).list == LoadOf(d.content).value.list
  {
  }

  // ---- a file that is gone ----

  /** Looking for a new file keeps the list when there is none. Reading it anyway, as a request that is about to write
      does, empties it: it keeps the list exactly when that was empty. */
  lemma MissingFileIsReadAsEmpty(p: Process, d: Disk, lastChecked: Option<int>, now: int)
    requires d.content.Missing?
    ensures CheckedReload(p, d, lastChecked, now) == p
    ensures Reloaded(p, d) == Process([], None, false, 0)
    ensures Reloaded(p, d).list == p.list <==> p.list == []
  {
  }

  /** A save that finds the file gone writes it anew, from this process's list. */
  lemma LostFileIsRewritten(p: Process, d: Disk, req: Request)
    requires Lost(p, d) && !req.Migrate? && Edited(p.list, req).Ok?
    ensures var o := Performed(p, d, req, true);
            o.error.None? && o.disk.content == Holds(Doc(ADMINS_VERSION, Edited(p.list, req).value))
  {
  }

  // ---- a load that is overtaken ----

  /** Load reads the file first and asks for its stamp afterwards; here somebody may have replaced it in between. */
  ghost function Overtaken(p: Process, read: Disk, stamped: Disk): Process {
    match LoadOf(read.content)
    case None => p
    case Some(l) => Process(l.list, StatOf(stamped), l.legacy, l.filledIDs)
  }

  /** Then the process takes the new file for the one it has read, and its next write overwrites it: what is written is
      an operation on the list as it was before. */
  lemma OvertakenLoadLosesTheUpdate(p: Process, read: Disk, stamped: Disk, req: Request)
    requires Readable(read) && stamped.content.Holds? && !req.Migrate?
             && Edited(LoadOf(read.content).value.list, req).Ok?
    ensures var o := Performed(Overtaken(p, read, stamped), stamped, req, true);
            && o.error.None?
            && o.disk.content == Holds(Doc(ADMINS_VERSION, Edited(LoadOf(read.content).value.list, req).value))
  {
  }

  /** It does no harm exactly when the file has the same administrators after all. */
  lemma OvertakenIsInStepExactlyWhen(p: Process, read: Disk, stamped: Disk)
    requires Readable(read) && stamped.content.Holds?
    ensures InStep(Overtaken(p, read, stamped), stamped) <==>
            Readable(stamped) && LoadOf(stamped.content).value.list == LoadOf(read.content).value.list
  {
    LoadedIsWellFormed(read.content);
  }

  // ---- the checks load makes ----

  lemma ValidPrefix(list: seq<Admin>, i: nat)
    requires i <= |list|
    ensures WellFormed(list) ==> WellFormed(list[..i])
  {
    if WellFormed(list) {
      assert forall a :: a in list[..i] ==> a in list;
      DistinctPrefix(list, IdOf, i);
      DistinctPrefix(list, KeyOf, i);
    }
  }

  lemma LongerPrefix(list: seq<Admin>, a: Admin)
    requires WellFormed(list)
    ensures WellFormed(list + [a]) <==>
            ValidAdmin(a) && IdOf(a) !in Images(list, IdOf) && KeyOf(a) !in Images(list, KeyOf)
  {
    AllAfterAppend(list, ValidAdmin, a);
    DistinctAfterAppend(list, IdOf, a);
    DistinctAfterAppend(list, KeyOf, a);
  }

  /** One record of load's loop: filled in if it predates ids, and refused if it is at fault or repeats a key or id. */
  method CheckRecord(a: Admin, legacy: bool, seen: set<string>, ids: set<string>)
    returns (ok: bool, full: Admin, filled: nat)
    ensures full == (if legacy then Filled(a) else a) && filled == (if legacy && a.id == "" then 1 else 0)
    ensures ok <==> ValidAdmin(full) && KeyOf(full) !in seen && IdOf(full) !in ids
  {
    full, filled, ok := a, 0, true;
    var key := KeyOf(a);
    if legacy && a.id == "" {
      full := a.(id := key);
      filled := 1;
    }
    if Trim(a.username) == "" || key in seen || full.id == "" || full.id in ids || !a.hash.Bcrypt? {
      ok := false;
    }
  }

  function FullList(records: seq<Admin>, legacy: bool): (full: seq<Admin>)
    ensures |full| == |records|
  {
    if legacy then FilledList(records) else records
  }

  function Keys(list: seq<Admin>): set<string> {
    Images(list, KeyOf)
  }

  lemma CheckStep(full: seq<Admin>, i: nat)
    requires i < |full| && WellFormed(full[..i])
    ensures full[..i + 1] == full[..i] + [full[i]]
    ensures WellFormed(full[..i + 1]) <==>
            ValidAdmin(full[i]) && KeyOf(full[i]) !in Keys(full[..i]) && IdOf(full[i]) !in Ids(full[..i])
    ensures WellFormed(full) ==> WellFormed(full[..i + 1])
  {
    assert full[..i + 1] == full[..i] + [full[i]];
    LongerPrefix(full[..i], full[i]);
    ValidPrefix(full, i + 1);
  }

  lemma MissingInLonger(records: seq<Admin>, i: nat)
    requires i < |records|
    ensures MissingIds(records[..i + 1]) == MissingIds(records[..i]) + if records[i].id == "" then 1 else 0
  {
    assert records[..i + 1][..i] == records[..i];
  }

  /** The list a file's records make, with ids filled in for a version 1 file; refused when any record is at fault. */
  method CheckList(records: seq<Admin>, legacy: bool) returns (ok: bool, list: seq<Admin>, filled: nat)
    ensures ok <==> WellFormed(FullList(records, legacy))
    ensures ok ==> list == FullList(records, legacy) && filled == if legacy then MissingIds(records) else 0
  {
    var seen: set<string>, ids: set<string> := {}, {};
    list, filled, ok := [], 0, false;
    assert records[..0] == [] && FullList(records, legacy)[..0] == [];
    for i := 0 to |records|
      invariant list == FullList(records, legacy)[..i] && WellFormed(list)
      invariant filled == if legacy then MissingIds(records[..i]) else 0
      invariant seen == Keys(list) && ids == Ids(list)
    {
      MissingInLonger(records, i);
      CheckStep(FullList(records, legacy), i);
      ImagesOfLonger(list, KeyOf, FullList(records, legacy)[i]);
      ImagesOfLonger(list, IdOf, FullList(records, legacy)[i]);
      var fine, a, n := CheckRecord(records[i], legacy, seen, ids);
      if !fine {
        return;
      }
      seen, ids, list, filled := seen + {KeyOf(a)}, ids + {a.id}, list + [a], filled + n;
    }
    assert records[..|records|] == records && FullList(records, legacy)[..|records|] == FullList(records, legacy);
    ok := true;
  }

  /** One process's administrator list. */
  class Store {
    const file: DocFile<Doc>
    var list: seq<Admin>
    var loaded: Option<nat>
    var lastChecked: Option<int>
    var legacy: bool
    var filledIDs: nat

    function State(): Process
      reads this
    {
      Process(list, loaded, legacy, filledIDs)
    }

    function OnDisk(): Disk
      reads this, file
    {
      Disk(file.content, file.stamp)
    }

    /** What the argument about several processes needs of each. No method breaks it, nor does another process, by
        OthersStayInStep, nor an edit by hand, by OutsideChangesKeepStep. */
    ghost predicate Valid()
      reads this, file
    {
      InStep(State(), OnDisk())
    }

    constructor (file: DocFile<Doc>)
      ensures this.file == file && State() == Process([], None, false, 0) && lastChecked == None && Valid()
    {
      this.file := file;
      list, loaded, lastChecked, legacy, filledIDs := [], None, None, false, 0;
    }

    method Load() returns (ok: bool)
      modifies this
      ensures old(Valid()) ==> Valid()
      ensures ok <==> LoadOf(file.content).Some?
      ensures State() == Reloaded(old(State()), OnDisk()) && lastChecked == old(lastChecked)
    {
      ghost var before := State();
      var records: seq<Admin>, old1 := [], false;
      match file.content {
        case Missing =>
        case Garbled => return false;
        case Holds(doc) =>
          if doc.version == 1 {
            old1 := true;
          } else if doc.version != ADMINS_VERSION {
            return false;
          }
          records := doc.admins;
      }
      var full, filled;
      ok, full, filled := CheckList(records, old1);
      if ok {
        list, legacy, filledIDs := full, old1, filled;
        loaded := file.Stat();
        if InStep(before, OnDisk()) {
          ReloadKeepsStep(before, OnDisk());
        }
      }
    }

    /** At most one look at the file per second; a missing or unreadable file leaves the list alone. */
    method ReloadIfChanged(now: int) returns (ok: bool)
      modifies this
      ensures old(Valid()) ==> Valid()
      ensures State() == CheckedReload(old(State()), OnDisk(), old(lastChecked), now)
      ensures lastChecked == if LookDue(old(lastChecked), now) then Some(now) else old(lastChecked)
      ensures ok <==> !LookDue(old(lastChecked), now) || !Moved(old(State()), OnDisk()) || LoadOf(file.content).Some?
    {
      if lastChecked.Some? && now - lastChecked.value < RELOAD_RESOLUTION {
        return true;
      }
      lastChecked := Some(now);
      var stat := file.Stat();
      if stat.None? || stat == loaded {
        return true;
      }
      ok := Load();
    }

    /** Rewrites the file, refusing to clobber an edit made underneath. */
    method Save(works: bool) returns (e: Option<StoreError>)
      modifies this`loaded, file
      ensures e == if !MayWrite(old(file.Stat()), old(loaded)) then Some(ChangedOnDisk)
                   else if !works then Some(WriteFailed) else None
      ensures e.None? ==> OnDisk() == Disk(Holds(Doc(ADMINS_VERSION, list)), old(file.stamp) + 1)
                          && loaded == Some(file.stamp)
      ensures e.Some? ==> OnDisk() == old(OnDisk()) && loaded == old(loaded)
    {
      var stat := file.Stat();
      if stat.Some? && stat != loaded {
        return Some(ChangedOnDisk);
      }
      if !works {
        return Some(WriteFailed);
      }
      file.Replace(Doc(ADMINS_VERSION, list));
      loaded := file.Stat();
      return None;
    }

    /** Puts an edited list in place and saves; a save that fails puts the old list back. */
    method SwapIn(next: seq<Admin>, works: bool) returns (e: Option<StoreError>)
      modifies this`list, this`loaded, file
      ensures Outcome(State(), OnDisk(), e) == Committed(old(State()), old(OnDisk()), Ok(next), old(legacy), works)
    {
      var before := list;
      list := next;
      e := Save(works);
      if e.Some? {
        list := before;
      }
    }

    method MigrateFile(works: bool) returns (r: Result<nat, StoreError>)
      modifies this, file
      ensures old(Valid()) ==> Valid()
      ensures var o := Performed(old(State()), old(OnDisk()), Migrate, works);
              && State() == o.process && OnDisk() == o.disk
              && r == match o.error case Some(e) => Err(e) case None => Ok(if old(legacy) then filledIDs else 0)
      ensures lastChecked == old(lastChecked)
    {
      if Valid() {
        WriteAppliesToFile(State(), OnDisk(), Migrate, works);
      }
      if !legacy {
        return Ok(0);
      }
      var e := Save(works);
      if e.Some? {
        return Err(e.value);
      }
      legacy := false;
      r := Ok(filledIDs);
    }

    /** The end of an operation: a refused edit changes nothing, and an accepted one is swapped in. */
    method Commit(ghost req: Request, edited: Result<seq<Admin>, StoreError>, works: bool)
      returns (e: Option<StoreError>)
      requires WellDrawn(req) && !req.Migrate? && edited == Edited(list, req)
      modifies this`list, this`loaded, file
      ensures old(Valid()) ==> Valid()
      ensures Outcome(State(), OnDisk(), e) == Performed(old(State()), old(OnDisk()), req, works)
    {
      if Valid() {
        WriteAppliesToFile(State(), OnDisk(), req, works);
      }
      if edited.Err? {
        return Some(edited.error);
      }
      e := SwapIn(edited.value, works);
    }

    method CreateAdmin(username: string, hash: Option<string>, draw: Draws, now: int, works: bool)
      returns (e: Option<StoreError>)
      requires DrawsIds(draw)
      modifies this, file
      ensures old(Valid()) ==> Valid()
      ensures Outcome(State(), OnDisk(), e)
              == Performed(old(State()), old(OnDisk()), Create(username, hash, draw, now), works)
      ensures lastChecked == old(lastChecked)
    {
      var next := AddToList(username, hash, draw, now);
      e := Commit(Create(username, hash, draw, now), next, works);
    }

    method AddToList(username: string, hash: Option<string>, draw: Draws, now: int)
      returns (next: Result<seq<Admin>, StoreError>)
      ensures next == Edited(list, Create(username, hash, draw, now))
    {
      var name, at := Trim(username), WholeSeconds(now);
      if !ValidUsername(name) || hash.None? {
        return Err(Invalid);
      }
      if IndexOf(list, Normalize(name)).Some? {
        return Err(Conflict);
      }
      var id := Mint(draw, Ids(list), 8);
      if id.None? {
        return Err(NoFreshValue);
      }
      next := Ok(list + [Admin(id.value, name, Bcrypt(hash.value), at, at)]);
    }

    method ChangeHash(i: Option<nat>, hash: Option<string>, now: int, works: bool) returns (e: Option<StoreError>)
      requires i.Some? ==> i.value < |list|
      modifies this, file
      ensures Outcome(State(), OnDisk(), e)
           == Committed(old(State()), old(OnDisk()), WithHash(old(list), i, hash, now), old(legacy), works)
      ensures lastChecked == old(lastChecked)
    {
      if hash.None? {
        return Some(Invalid);
      }
      if i.None? {
        return Some(NotFound);
      }
      e := SwapIn(list[i.value := list[i.value].(hash := Bcrypt(hash.value), updatedAt := WholeSeconds(now))], works);
    }

    method ChangePassword(username: string, hash: Option<string>, now: int, works: bool) returns (e: Option<StoreError>)
      modifies this, file
      ensures old(Valid()) ==> Valid()
      ensures Outcome(State(), OnDisk(), e)
              == Performed(old(State()), old(OnDisk()), SetPassword(username, hash, now), works)
      ensures lastChecked == old(lastChecked)
    {
      if Valid() {
        WriteAppliesToFile(State(), OnDisk(), SetPassword(username, hash, now), works);
      }
      e := ChangeHash(IndexOf(list, Normalize(username)), hash, now, works);
    }

    method ChangePasswordByID(id: string, hash: Option<string>, now: int, works: bool) returns (e: Option<StoreError>)
      modifies this, file
      ensures old(Valid()) ==> Valid()
      ensures Outcome(State(), OnDisk(), e)
              == Performed(old(State()), old(OnDisk()), SetPasswordByID(id, hash, now), works)
      ensures lastChecked == old(lastChecked)
    {
      if Valid() {
        WriteAppliesToFile(State(), OnDisk(), SetPasswordByID(id, hash, now), works);
      }
      e := ChangeHash(IndexOfID(list, id), hash, now, works);
    }

    method ChangeUsername(id: string, username: string, now: int, works: bool) returns (e: Option<StoreError>)
      modifies this, file
      ensures old(Valid()) ==> Valid()
      ensures Outcome(State(), OnDisk(), e)
              == Performed(old(State()), old(OnDisk()), SetUsername(id, username, now), works)
      ensures lastChecked == old(lastChecked)
    {
      var next := RenameInList(id, username, now);
      e := Commit(SetUsername(id, username, now), next, works);
    }

    method RenameInList(id: string, username: string, now: int) returns (next: Result<seq<Admin>, StoreError>)
      ensures next == Edited(list, SetUsername(id, username, now))
    {
      var name := Trim(username);
      if !ValidUsername(name) {
        return Err(Invalid);
      }
      var i := IndexOfID(list, id);
      if i.None? {
        return Err(NotFound);
      }
      var j := IndexOf(list, Normalize(name));
      if j.Some? && j != i {
        return Err(Conflict);
      }
      next := Ok(list[i.value := list[i.value].(username := name, updatedAt := WholeSeconds(now))]);
    }

    method DropFromList(username: string) returns (next: Result<seq<Admin>, StoreError>)
      ensures next == Edited(list, Delete(username))
    {
      var i := IndexOf(list, Normalize(username));
      if i.None? {
        return Err(NotFound);
      }
      next := Ok(Without(list, i.value));
    }

    method DeleteAdmin(username: string, works: bool) returns (e: Option<StoreError>)
      modifies this, file
      ensures old(Valid()) ==> Valid()
      ensures Outcome(State(), OnDisk(), e) == Performed(old(State()), old(OnDisk()), Delete(username), works)
      ensures lastChecked == old(lastChecked)
    {
      var next := DropFromList(username);
      e := Commit(Delete(username), next, works);
    }
  }

  // ---- whole runs ----

  datatype World = World(disk: Disk, processes: seq<Process>)

  datatype Action = Reload(p: nat) | Ask(p: nat, req: Request, works: bool)

  ghost predicate WellRun(w: World) {
    Readable(w.disk) && forall i :: 0 <= i < |w.processes| ==>
      InStep(w.processes[i], w.disk) && !Lost(w.processes[i], w.disk)
  }

  predicate CanAct(w: World, a: Action) {
    a.p < |w.processes|
  }

  ghost function Acted(w: World, a: Action): World
    requires CanAct(w, a)
  {
    var p := w.processes[a.p];
    match a
    case Reload(_) => w.(processes := w.processes[a.p := Reloaded(p, w.disk)])
    case Ask(_, req, works) =>
      var o := Performed(p, w.disk, req, works);
      World(o.disk, w.processes[a.p := o.process])
  }

  ghost predicate CanRun(w: World, actions: seq<Action>)
    decreases |actions|
  {
    actions == [] ||
    (CanAct(w, actions[0]) && (actions[0].Ask? ==> WellDrawn(actions[0].req))
      && CanRun(Acted(w, actions[0]), actions[1..]))
  }

  ghost function AfterRun(w: World, actions: seq<Action>): World
    requires CanRun(w, actions)
    decreases |actions|
  {
    if actions == [] then w else AfterRun(Acted(w, actions[0]), actions[1..])
  }

  /** The operations whose callers were told that they succeeded, in order. */
  ghost function Acknowledged(w: World, actions: seq<Action>): seq<Request>
    requires CanRun(w, actions)
    decreases |actions|
  {
    if actions == [] then []
    else
      var a := actions[0];
      (if a.Ask? && Performed(w.processes[a.p], w.disk, a.req, a.works).error.None? then [a.req] else [])
      + Acknowledged(Acted(w, a), actions[1..])
  }

  /** The operations applied one after the other to one list. */
  ghost function Replayed(list: seq<Admin>, reqs: seq<Request>): Option<seq<Admin>>
    decreases |reqs|
  {
    if reqs == [] then Some(list)
    else if Edited(list, reqs[0]).Err? then None
    else Replayed(Edited(list, reqs[0]).value, reqs[1..])
  }

  lemma ActionKeepsWorld(w: World, a: Action)
    requires WellRun(w) && CanAct(w, a) && (a.Ask? ==> WellDrawn(a.req))
    ensures WellRun(Acted(w, a))
  {
    var p, w' := w.processes[a.p], Acted(w, a);
    if a.Reload? {
      ReloadKeepsStep(p, w.disk);
    } else {
      WriteAppliesToFile(p, w.disk, a.req, a.works);
      forall i | 0 <= i < |w.processes| && i != a.p
        ensures InStep(w'.processes[i], w'.disk) && !Lost(w'.processes[i], w'.disk)
      {
        OthersStayInStep(w.processes[i], w.disk, p, a.req, a.works);
      }
    }
  }

  /** One action of the run: an acknowledged operation is applied to the file's list, and nothing else touches it. */
  lemma ActionAppliesToFile(w: World, a: Action)
    requires WellRun(w) && CanAct(w, a) && (a.Ask? ==> WellDrawn(a.req))
    ensures Readable(Acted(w, a).disk)
    ensures var before, after := LoadOf(w.disk.content).value.list, LoadOf(Acted(w, a).disk.content).value.list;
            if a.Ask? && Performed(w.processes[a.p], w.disk, a.req, a.works).error.None?
              then Edited(before, a.req) == Ok(after)
            else after == before
  {
    ActionKeepsWorld(w, a);
    if a.Ask? {
      WriteAppliesToFile(w.processes[a.p], w.disk, a.req, a.works);
      RepliesTellTheTruth(w.processes[a.p], w.disk, a.req, a.works);
    }
  }

  /** No lost update: however the processes interleave, the file ends as if every operation that was acknowledged, and
      no other, had been applied to it in order, and it stays readable, with unique ids and case-folded usernames. */
  lemma {:induction false} NoLostUpdate(w: World, actions: seq<Action>)
    requires WellRun(w) && CanRun(w, actions)
    ensures var end := AfterRun(w, actions);
            && WellRun(end) && WellFormed(LoadOf(end.disk.content).value.list)
            && Replayed(LoadOf(w.disk.content).value.list, Acknowledged(w, actions))
               == Some(LoadOf(end.disk.content).value.list)
    decreases |actions|
  {
    LoadedIsWellFormed(w.disk.content);
    if actions != [] {
      var a := actions[0];
      var w' := Acted(w, a);
      ActionKeepsWorld(w, a);
      ActionAppliesToFile(w, a);
      NoLostUpdate(w', actions[1..]);
      if a.Ask? && Performed(w.processes[a.p], w.disk, a.req, a.works).error.None? {
        assert Acknowledged(w, actions)[0] == a.req && Acknowledged(w, actions)[1..] == Acknowledged(w', actions[1..]);
      } else {
        assert Acknowledged(w, actions) == Acknowledged(w', actions[1..]);
      }
    }
  }

  /** A version 1 file is migrated without losing or renaming anybody: ids already there stay, and a missing one becomes
      the case-folded username. */
  lemma MigrationKeepsRecords(d: Disk, works: bool)
    requires d.content.Holds? && d.content.doc.version == 1 && Readable(d) && works
    ensures var records, p := d.content.doc.admins, Reloaded(Process([], None, false, 0), d);
            var o := Performed(p, d, Migrate, works);
            && o.error.None? && !o.process.legacy
            && o.disk.content == Holds(Doc(ADMINS_VERSION, FilledList(records)))
            && (forall i :: 0 <= i < |records| ==>
                  var a := FilledList(records)[i];
                  a == records[i].(id := a.id) && a.id == if records[i].id == "" then Normalize(a.username)
                    else records[i].id)
            && LoadOf(o.disk.content) == Some(Loaded(LoadOf(d.content).value.list, false, 0))
  {
  }
}
