/** The locking and commit protocol of oci/internal/cache/storage.go, for any number of callers, failures and crashes. */
module StorageProtocol {
  import opened Framing

  type Pid = nat

  datatype Path = Final(name: string) | Temp(id: nat)

  /** The data of a stream is all that goes through its writer before Close. */
  datatype Request =
    | Write(name: string, data: Bytes)
    | Stream(name: string, data: Bytes)
    | Read(name: string)
    | Remove(name: string)
  {
    predicate Writes() {
      Write? || Stream?
    }
  }

  datatype Outcome = Pending | Failed | Wrote | Removed | Absent | Got(result: ReadResult)

  /** Where an operation is: the next thing it does. */
  datatype Label =
    | LockFile                        // all operations
    | Mkdir | MakeTemp                // WriteAtomically
    | OpenStream                      // NewStreamWriter
    | Create | PutSum | PutData       // writing with the checksum
    | DoRename | Cleanup              // WriteAtomically
    | Commit                          // StreamWriter.Close
    | CheckExists | OpenFile | ReadAll  // ReadWithIntegrity
    | DoRemove                        // Remove
    | UnlockFile | Finished           // all operations
    | Stranded                        // StreamWriter.Close has failed, and keeps the file lock

  /** `inside` holds while the global lock is held for the labelled action; `temp` and `handle` are locals. */
  datatype Proc = Proc(req: Request, at: Label, inside: bool, temp: nat, handle: Bytes, outcome: Outcome)

  /** `committed` is history: the data of the last rename to each name not removed since. */
  datatype State = State(
    files: map<Path, Bytes>,
    nextTemp: nat,
    fileLocks: map<string, Pid>,
    writer: set<Pid>,
    readers: set<Pid>,
    procs: map<Pid, Proc>,
    committed: map<string, Bytes>)

  datatype Event =
    | Begin(pid: Pid, req: Request)
    | Acquire(pid: Pid)                // takes the global lock for the next action
    | Act(pid: Pid, ok: bool, n: nat)  // performs it; n bytes of a failed write reach the file
    | CleanTemp(ids: set<nat>)         // CleanupTempFiles, within the global lock
    | Crash

  predicate Exclusive(at: Label) {
    || at.Mkdir? || at.MakeTemp? || at.OpenStream? || at.Create?
    || at.DoRename? || at.Cleanup? || at.Commit? || at.DoRemove?
  }

  predicate Shared(at: Label) {
    at.CheckExists? || at.OpenFile?
  }

  /** No step is left. */
  predicate Over(at: Label) {
    at.Finished? || at.Stranded?
  }

  predicate HoldsFile(p: Proc) {
    !p.at.LockFile? && !p.at.Finished?
  }

  predicate OwnsTemp(p: Proc) {
    p.at.Create? || p.at.PutSum? || p.at.PutData? || p.at.DoRename? || p.at.Cleanup? || p.at.Commit?
  }

  predicate Enabled(s: State, e: Event) {
    match e
    case Begin(pid, req) => pid in s.procs ==> s.procs[pid].at.Finished?
    case Acquire(pid) =>
      && pid in s.procs && !s.procs[pid].inside
      && (Exclusive(s.procs[pid].at) || Shared(s.procs[pid].at))
      && s.writer == {} && (Exclusive(s.procs[pid].at) ==> s.readers == {})
    case Act(pid, ok, n) =>
      && pid in s.procs && !Over(s.procs[pid].at)
      && (Exclusive(s.procs[pid].at) || Shared(s.procs[pid].at) ==> s.procs[pid].inside)
      && (s.procs[pid].at.LockFile? ==> s.procs[pid].req.name !in s.fileLocks)
    case CleanTemp(ids) => s.writer == {} && s.readers == {}
    case Crash => true
  }

  /** The step of one operation, without its locks. */
  function Perform(sum: Checksum, s: State, p: Proc, ok: bool, n: nat): (State, Proc) {
    var name, temp := p.req.name, Temp(p.temp);
    var failed := p.(at := UnlockFile, outcome := Failed);
    var giveUp := p.(at := if p.req.Stream? then Stranded else Cleanup, outcome := Failed);
    match p.at
    case LockFile => (s, p.(at := FirstStep(p.req)))
    case Mkdir => if ok then (s, p.(at := MakeTemp)) else (s, failed)
    case MakeTemp =>
      if ok then (s.(nextTemp := s.nextTemp + 1), p.(at := Create, temp := s.nextTemp)) else (s, failed)
    case OpenStream =>
      if ok then
        (s.(nextTemp := s.nextTemp + 1, files := s.files[Temp(s.nextTemp) := ""]), p.(at := Create, temp := s.nextTemp))
      else (s, failed)
    case Create => if ok then (s.(files := s.files[temp := ""]), p.(at := PutSum)) else (s, giveUp)
    case PutSum =>
      var line := if p.req.Writes() then sum(p.req.data) + "\n" else "";
      if ok then (s.(files := Append(s.files, temp, line)), p.(at := PutData))
      else (s.(files := Append(s.files, temp, Upto(line, n))), giveUp)
    case PutData =>
      var data := if p.req.Writes() then p.req.data else "";
      if ok then (s.(files := Append(s.files, temp, data)), p.(at := if p.req.Stream? then Commit else DoRename))
      else (s.(files := Append(s.files, temp, Upto(data, n))), giveUp)
    case DoRename =>
      if ok && temp in s.files && p.req.Writes() then (Renamed(s, p), p.(at := Cleanup, outcome := Wrote))
      else (s, giveUp)
    case Commit =>
      if ok && temp in s.files && p.req.Writes() then (Renamed(s, p), p.(at := UnlockFile, outcome := Wrote))
      else (s, giveUp)
    case Cleanup => (if ok then s.(files := s.files - {temp}) else s, p.(at := UnlockFile))
    case CheckExists =>
      if !ok then (s, failed)
      else if Final(name) in s.files then (s, p.(at := OpenFile))
      else (s, p.(at := UnlockFile, outcome := Absent))
    case OpenFile =>
      if ok && Final(name) in s.files then (s, p.(at := ReadAll, handle := s.files[Final(name)])) else (s, failed)
    case ReadAll =>
      if ok then (s, p.(at := UnlockFile, outcome := Got(Unframe(sum, p.handle)))) else (s, failed)
    case DoRemove =>
      if Final(name) !in s.files then (s, p.(at := UnlockFile, outcome := Absent))
      else if ok then
        (s.(files := s.files - {Final(name)}, committed := s.committed - {name}), p.(at := UnlockFile, outcome := Removed))
      else (s, failed)
    case UnlockFile => (s, p.(at := Finished))
    case Finished => (s, p)
    case Stranded => (s, p)
  }

  function FirstStep(req: Request): Label {
    match req
    case Write(_, _) => Mkdir
    case Stream(_, _) => OpenStream
    case Read(_) => CheckExists
    case Remove(_) => DoRemove
  }

  /** The temp file takes the place of the final one. */
  function Renamed(s: State, p: Proc): State
    requires Temp(p.temp) in s.files && p.req.Writes()
  {
    s.(files := (s.files - {Temp(p.temp)})[Final(p.req.name) := s.files[Temp(p.temp)]],
       committed := s.committed[p.req.name := p.req.data])
  }

  /** Writes to a temp file whose name CleanTemp has removed go nowhere. */
  function Append(files: map<Path, Bytes>, path: Path, bytes: Bytes): map<Path, Bytes> {
    if path in files then files[path := files[path] + bytes] else files
  }

  function Upto(bytes: Bytes, n: nat): Bytes {
    if n <= |bytes| then bytes[..n] else bytes
  }

  function Apply(sum: Checksum, s: State, e: Event): State
    requires Enabled(s, e)
  {
    match e
    case Begin(pid, req) => s.(procs := s.procs[pid := Proc(req, LockFile, false, 0, "", Pending)])
    case Acquire(pid) =>
      var p := s.procs[pid];
      s.(procs := s.procs[pid := p.(inside := true)],
         writer := if Exclusive(p.at) then {pid} else s.writer,
         readers := if Exclusive(p.at) then s.readers else s.readers + {pid})
    case Act(pid, ok, n) =>
      var (t, q) := Perform(sum, s, s.procs[pid], ok, n);
      Land(s, pid, t, q)
    case CleanTemp(ids) => s.(files := map path | path in s.files && !(path.Temp? && path.id in ids) :: s.files[path])
    case Crash => s.(fileLocks := map[], writer := {}, readers := {}, procs := map[])
  }

  /** After the action: the caller's new step, the global lock released, the file lock taken or released. */
  function Land(s: State, pid: Pid, t: State, q: Proc): State
    requires pid in s.procs
  {
    var p := s.procs[pid];
    t.(procs := s.procs[pid := q.(inside := false)],
       writer := s.writer - {pid},
       readers := s.readers - {pid},
       fileLocks := if p.at.LockFile? then s.fileLocks[p.req.name := pid]
                    else if p.at.UnlockFile? then s.fileLocks - {p.req.name}
                    else s.fileLocks)
  }

  const Fresh := State(map[], 0, map[], {}, {}, map[], map[])

  /** The state after the events; an event that is not enabled when its turn comes does nothing. */
  function After(sum: Checksum, events: seq<Event>): State {
    if events == [] then Fresh
    else
      Next(sum, After(sum, events[..|events| - 1]), events[|events| - 1])
  }

  function Next(sum: Checksum, s: State, e: Event): State {
    if Enabled(s, e) then Apply(sum, s, e) else s
  }

  /******* The invariant *******/

  /** A final path holds the whole frame of the last committed data, or is absent. */
  ghost predicate FilesWhole(sum: Checksum, s: State) {
    && (forall name :: Final(name) in s.files <==> name in s.committed)
    && (forall name :: name in s.committed ==> s.files[Final(name)] == Frame(sum, s.committed[name]))
  }

  ghost predicate FileLocksHeld(s: State) {
    && (forall pid :: pid in s.procs && HoldsFile(s.procs[pid]) ==>
          s.procs[pid].req.name in s.fileLocks && s.fileLocks[s.procs[pid].req.name] == pid)
    && (forall name :: name in s.fileLocks ==>
          s.fileLocks[name] in s.procs && HoldsFile(s.procs[s.fileLocks[name]]) && s.procs[s.fileLocks[name]].req.name == name)
  }

  ghost predicate GlobalLockHeld(s: State) {
    && (forall pid :: pid in s.writer <==> pid in s.procs && s.procs[pid].inside && Exclusive(s.procs[pid].at))
    && (forall pid :: pid in s.readers <==> pid in s.procs && s.procs[pid].inside && Shared(s.procs[pid].at))
    && (forall p, q :: p in s.writer && q in s.writer ==> p == q)
    && (s.writer == {} || s.readers == {})
    && (forall pid :: pid in s.procs && s.procs[pid].inside ==> Exclusive(s.procs[pid].at) || Shared(s.procs[pid].at))
  }

  ghost predicate TempsOwned(s: State) {
    && (forall pid :: pid in s.procs && OwnsTemp(s.procs[pid]) ==> s.procs[pid].temp < s.nextTemp)
    && (forall p, q :: p in s.procs && q in s.procs && p != q && OwnsTemp(s.procs[p]) && OwnsTemp(s.procs[q]) ==>
          s.procs[p].temp != s.procs[q].temp)
    && (forall id: nat :: Temp(id) in s.files ==> id < s.nextTemp)
  }

  /** What an operation knows at each of its steps. */
  ghost predicate Knows(sum: Checksum, s: State, p: Proc) {
    var name := p.req.name;
    && (OwnsTemp(p) ==> p.req.Writes())
    && (p.at.Mkdir? || p.at.MakeTemp? || p.at.DoRename? || p.at.Cleanup? ==> p.req.Write?)
    && (p.at.OpenStream? || p.at.Commit? || p.at.Stranded? ==> p.req.Stream?)
    && (p.at.CheckExists? || p.at.OpenFile? || p.at.ReadAll? ==> p.req.Read?)
    && (p.at.DoRemove? ==> p.req.Remove?)
    && (Temp(p.temp) in s.files ==>
          var content := s.files[Temp(p.temp)];
          && (p.at.PutSum? ==> content == "")
          && (p.at.PutData? ==> content == sum(p.req.data) + "\n")
          && (p.at.DoRename? || p.at.Commit? ==> content == Frame(sum, p.req.data)))
    && (p.at.OpenFile? ==> name in s.committed)
    && (p.at.ReadAll? ==> name in s.committed && p.handle == Frame(sum, s.committed[name]))
    && (p.at.Cleanup? || p.at.UnlockFile? || Over(p.at) <==> !p.outcome.Pending?)
    && (p.at.Stranded? ==> p.outcome.Failed?)
    && (p.outcome.Got? ==> p.req.Read? && p.outcome.result.Data?)
    && (p.outcome.Wrote? ==> p.req.Writes())
    && (p.outcome.Absent? ==> p.req.Read? || p.req.Remove?)
    && (p.outcome.Removed? ==> p.req.Remove?)
    // until the file lock is released, the outcome is still the truth about the file
    && (HoldsFile(p) && p.outcome.Wrote? ==> name in s.committed && s.committed[name] == p.req.data)
    && (HoldsFile(p) && (p.outcome.Absent? || p.outcome.Removed?) ==> name !in s.committed)
    && (HoldsFile(p) && p.outcome.Got? ==> name in s.committed && p.outcome.result == Data(s.committed[name]))
  }

  ghost predicate AllKnow(sum: Checksum, s: State) {
    forall pid :: pid in s.procs ==> Knows(sum, s, s.procs[pid])
  }

  ghost predicate Inv(sum: Checksum, s: State) {
    && FilesWhole(sum, s)
    && FileLocksHeld(s)
    && GlobalLockHeld(s)
    && TempsOwned(s)
    && AllKnow(sum, s)
  }

  /******* What one action can change *******/

  ghost predicate SameAt(s: State, t: State, path: Path) {
    (path in t.files <==> path in s.files) && (path in s.files ==> t.files[path] == s.files[path])
  }

  ghost predicate SameCommit(s: State, t: State, name: string) {
    (name in t.committed <==> name in s.committed) && (name in s.committed ==> t.committed[name] == s.committed[name])
  }

  /** The action of p touches its own temp file and, while it holds the file lock, its own final file. */
  ghost predicate Moved(s: State, p: Proc, t: State, q: Proc) {
    && q.req == p.req
    && (HoldsFile(q) <==> !p.at.UnlockFile?)
    && (OwnsTemp(q) ==> (OwnsTemp(p) && q.temp == p.temp) || ((p.at.MakeTemp? || p.at.OpenStream?) && q.temp == s.nextTemp < t.nextTemp))
    && s.nextTemp <= t.nextTemp
    && (forall name :: name != p.req.name || p.at.LockFile? ==> SameAt(s, t, Final(name)) && SameCommit(s, t, name))
    && (forall id: nat :: id < s.nextTemp && (id != p.temp || !OwnsTemp(p)) ==> SameAt(s, t, Temp(id)))
    && (forall id: nat :: id >= t.nextTemp ==> SameAt(s, t, Temp(id)))
  }

  ghost predicate TempsOnly(s: State, t: State) {
    t.committed == s.committed && forall name :: SameAt(s, t, Final(name))
  }

  predicate TouchesTemp(at: Label) {
    at.OpenStream? || at.Create? || at.PutSum? || at.PutData? || at.Cleanup?
  }

  predicate TouchesFinal(at: Label) {
    at.DoRename? || at.Commit? || at.DoRemove?
  }

  lemma QuietMoves(sum: Checksum, s: State, p: Proc, ok: bool, n: nat)
    requires !Over(p.at) && !TouchesTemp(p.at) && !TouchesFinal(p.at)
    ensures var (t, q) := Perform(sum, s, p, ok, n);
            Moved(s, p, t, q) && t.files == s.files && t.committed == s.committed
  {
  }

  lemma OpenMoves(sum: Checksum, s: State, p: Proc, ok: bool, n: nat)
    requires p.at.OpenStream?
    ensures var (t, q) := Perform(sum, s, p, ok, n);
            Moved(s, p, t, q) && TempsOnly(s, t)
  {
  }

  lemma CreateMoves(sum: Checksum, s: State, p: Proc, ok: bool, n: nat)
    requires p.at.Create? && p.temp < s.nextTemp
    ensures var (t, q) := Perform(sum, s, p, ok, n);
            Moved(s, p, t, q) && TempsOnly(s, t)
  {
  }

  lemma PutSumMoves(sum: Checksum, s: State, p: Proc, ok: bool, n: nat)
    requires p.at.PutSum? && p.temp < s.nextTemp
    ensures var (t, q) := Perform(sum, s, p, ok, n);
            Moved(s, p, t, q) && TempsOnly(s, t)
  {
  }

  lemma PutDataMoves(sum: Checksum, s: State, p: Proc, ok: bool, n: nat)
    requires p.at.PutData? && p.temp < s.nextTemp
    ensures var (t, q) := Perform(sum, s, p, ok, n);
            Moved(s, p, t, q) && TempsOnly(s, t)
  {
  }

  lemma CleanupMoves(sum: Checksum, s: State, p: Proc, ok: bool, n: nat)
    requires p.at.Cleanup? && p.temp < s.nextTemp
    ensures var (t, q) := Perform(sum, s, p, ok, n);
            Moved(s, p, t, q) && TempsOnly(s, t)
  {
  }

  lemma TempMoves(sum: Checksum, s: State, p: Proc, ok: bool, n: nat)
    requires TouchesTemp(p.at) && (OwnsTemp(p) ==> p.temp < s.nextTemp)
    ensures var (t, q) := Perform(sum, s, p, ok, n);
            Moved(s, p, t, q) && TempsOnly(s, t)
  {
    match p.at
    case OpenStream => OpenMoves(sum, s, p, ok, n);
    case Create => CreateMoves(sum, s, p, ok, n);
    case Cleanup => CleanupMoves(sum, s, p, ok, n);
    case PutSum => PutSumMoves(sum, s, p, ok, n);
    case PutData => PutDataMoves(sum, s, p, ok, n);
  }

  lemma RenameMoves(sum: Checksum, s: State, p: Proc, ok: bool, n: nat)
    requires (p.at.DoRename? || p.at.Commit?) && p.temp < s.nextTemp
    ensures var (t, q) := Perform(sum, s, p, ok, n);
            Moved(s, p, t, q)
  {
  }

  lemma RemoveMoves(sum: Checksum, s: State, p: Proc, ok: bool, n: nat)
    requires p.at.DoRemove?
    ensures var (t, q) := Perform(sum, s, p, ok, n);
            Moved(s, p, t, q)
  {
  }

  lemma LandFileLocks(s: State, pid: Pid, t: State, q: Proc)
    requires pid in s.procs && FileLocksHeld(s) && Moved(s, s.procs[pid], t, q) && !Over(s.procs[pid].at)
    requires s.procs[pid].at.LockFile? ==> s.procs[pid].req.name !in s.fileLocks
    ensures FileLocksHeld(Land(s, pid, t, q))
  {
  }

  lemma LandGlobalLock(s: State, pid: Pid, t: State, q: Proc)
    requires pid in s.procs && GlobalLockHeld(s)
    ensures GlobalLockHeld(Land(s, pid, t, q))
  {
  }

  lemma LandTemps(s: State, pid: Pid, t: State, q: Proc)
    requires pid in s.procs && TempsOwned(s) && Moved(s, s.procs[pid], t, q)
    ensures TempsOwned(Land(s, pid, t, q))
  {
    forall id: nat | Temp(id) in t.files
      ensures id < t.nextTemp
    {
      assert id >= t.nextTemp ==> SameAt(s, t, Temp(id));
    }
  }

  lemma LandOther(sum: Checksum, s: State, pid: Pid, t: State, q: Proc, other: Pid)
    requires pid in s.procs && other in s.procs && other != pid && Moved(s, s.procs[pid], t, q)
    requires FileLocksHeld(s) && TempsOwned(s) && Knows(sum, s, s.procs[other]) && !Over(s.procs[pid].at)
    ensures Knows(sum, Land(s, pid, t, q), s.procs[other])
  {
    var p, o := s.procs[pid], s.procs[other];
    if HoldsFile(o) {
      assert o.req.name != p.req.name || p.at.LockFile?;
      assert SameCommit(s, t, o.req.name);
    }
    if OwnsTemp(o) {
      assert SameAt(s, t, Temp(o.temp));
    }
  }

  /******* An action keeps the files whole, and leaves its operation knowing what it should *******/

  lemma RenameWhole(sum: Checksum, s: State, p: Proc, ok: bool, n: nat)
    requires FilesWhole(sum, s) && Knows(sum, s, p) && (p.at.DoRename? || p.at.Commit?)
    ensures FilesWhole(sum, Perform(sum, s, p, ok, n).0)
  {
  }

  lemma RemoveWhole(sum: Checksum, s: State, p: Proc, ok: bool, n: nat)
    requires FilesWhole(sum, s) && p.at.DoRemove?
    ensures FilesWhole(sum, Perform(sum, s, p, ok, n).0)
  {
  }

  lemma SameWhole(sum: Checksum, s: State, t: State)
    requires FilesWhole(sum, s) && TempsOnly(s, t)
    ensures FilesWhole(sum, t)
  {
  }

  lemma PerformMovesWhole(sum: Checksum, s: State, p: Proc, ok: bool, n: nat)
    requires FilesWhole(sum, s) && Knows(sum, s, p) && !Over(p.at) && (OwnsTemp(p) ==> p.temp < s.nextTemp)
    ensures var (t, q) := Perform(sum, s, p, ok, n);
            Moved(s, p, t, q) && FilesWhole(sum, t)
  {
    if p.at.DoRename? || p.at.Commit? {
      RenameMoves(sum, s, p, ok, n);
      RenameWhole(sum, s, p, ok, n);
    } else if p.at.DoRemove? {
      RemoveMoves(sum, s, p, ok, n);
      RemoveWhole(sum, s, p, ok, n);
    } else {
      if TouchesTemp(p.at) {
        TempMoves(sum, s, p, ok, n);
      } else {
        QuietMoves(sum, s, p, ok, n);
      }
      SameWhole(sum, s, Perform(sum, s, p, ok, n).0);
    }
  }

  lemma StartKnows(sum: Checksum, s: State, p: Proc, ok: bool, n: nat)
    requires Knows(sum, s, p) && TempsOwned(s) && (p.at.Mkdir? || p.at.MakeTemp? || p.at.OpenStream? || p.at.Create?)
    ensures var (t, q) := Perform(sum, s, p, ok, n);
            Knows(sum, t, q)
  {
  }

  lemma PutKnows(sum: Checksum, s: State, p: Proc, ok: bool, n: nat)
    requires Knows(sum, s, p) && (p.at.PutSum? || p.at.PutData?)
    ensures var (t, q) := Perform(sum, s, p, ok, n);
            Knows(sum, t, q)
  {
  }

  lemma EndKnows(sum: Checksum, s: State, p: Proc, ok: bool, n: nat)
    requires Knows(sum, s, p) && (p.at.DoRename? || p.at.Commit? || p.at.Cleanup?)
    ensures var (t, q) := Perform(sum, s, p, ok, n);
            Knows(sum, t, q)
  {
  }

  lemma ReadKnows(sum: Checksum, s: State, p: Proc, ok: bool, n: nat)
    requires OneLine(sum) && FilesWhole(sum, s) && Knows(sum, s, p)
    requires p.at.CheckExists? || p.at.OpenFile? || p.at.ReadAll?
    ensures var (t, q) := Perform(sum, s, p, ok, n);
            Knows(sum, t, q)
  {
    if p.at.ReadAll? {
      UnframeFrame(sum, s.committed[p.req.name]);
    }
  }

  lemma OtherKnows(sum: Checksum, s: State, p: Proc, ok: bool, n: nat)
    requires FilesWhole(sum, s) && Knows(sum, s, p) && (p.at.LockFile? || p.at.DoRemove? || p.at.UnlockFile?)
    ensures var (t, q) := Perform(sum, s, p, ok, n);
            Knows(sum, t, q)
  {
  }

  /******* Every event keeps the invariant *******/

  lemma PerformKnows(sum: Checksum, s: State, p: Proc, ok: bool, n: nat)
    requires OneLine(sum) && FilesWhole(sum, s) && TempsOwned(s) && Knows(sum, s, p) && !Over(p.at)
    ensures var (t, q) := Perform(sum, s, p, ok, n);
            Knows(sum, t, q)
  {
    if p.at.Mkdir? || p.at.MakeTemp? || p.at.OpenStream? || p.at.Create? {
      StartKnows(sum, s, p, ok, n);
    } else if p.at.PutSum? || p.at.PutData? {
      PutKnows(sum, s, p, ok, n);
    } else if p.at.DoRename? || p.at.Commit? || p.at.Cleanup? {
      EndKnows(sum, s, p, ok, n);
    } else if p.at.CheckExists? || p.at.OpenFile? || p.at.ReadAll? {
      ReadKnows(sum, s, p, ok, n);
    } else {
      OtherKnows(sum, s, p, ok, n);
    }
  }

  lemma ActKeeps(sum: Checksum, s: State, pid: Pid, ok: bool, n: nat)
    requires OneLine(sum) && Inv(sum, s) && Enabled(s, Act(pid, ok, n))
    ensures Inv(sum, Apply(sum, s, Act(pid, ok, n)))
  {
    var p := s.procs[pid];
    var (t, q) := Perform(sum, s, p, ok, n);
    PerformMovesWhole(sum, s, p, ok, n);
    PerformKnows(sum, s, p, ok, n);
    ActLands(sum, s, pid, t, q);
  }

  lemma ActLands(sum: Checksum, s: State, pid: Pid, t: State, q: Proc)
    requires Inv(sum, s) && pid in s.procs && !Over(s.procs[pid].at) && Moved(s, s.procs[pid], t, q)
    requires s.procs[pid].at.LockFile? ==> s.procs[pid].req.name !in s.fileLocks
    requires FilesWhole(sum, t) && Knows(sum, t, q)
    ensures Inv(sum, Land(s, pid, t, q))
  {
    LandFileLocks(s, pid, t, q);
    LandGlobalLock(s, pid, t, q);
    LandTemps(s, pid, t, q);
    LandKnows(sum, s, pid, t, q);
  }

  lemma LandKnows(sum: Checksum, s: State, pid: Pid, t: State, q: Proc)
    requires pid in s.procs && !Over(s.procs[pid].at) && Moved(s, s.procs[pid], t, q)
    requires FileLocksHeld(s) && TempsOwned(s) && AllKnow(sum, s) && Knows(sum, t, q)
    ensures AllKnow(sum, Land(s, pid, t, q))
  {
    var u := Land(s, pid, t, q);
    forall other | other in u.procs
      ensures Knows(sum, u, u.procs[other])
    {
      if other != pid {
        LandOther(sum, s, pid, t, q, other);
      } else {
        KnowsStill(sum, t, u, q, false);
      }
    }
  }

  lemma KnowsStill(sum: Checksum, s: State, t: State, p: Proc, inside: bool)
    requires Knows(sum, s, p) && t.files == s.files && t.committed == s.committed
    ensures Knows(sum, t, p.(inside := inside))
  {
  }

  lemma BeginLocks(sum: Checksum, s: State, e: Event)
    requires FileLocksHeld(s) && GlobalLockHeld(s) && e.Begin? && Enabled(s, e)
    ensures var t := Apply(sum, s, e); FileLocksHeld(t) && GlobalLockHeld(t)
  {
  }

  lemma BeginTemps(sum: Checksum, s: State, e: Event)
    requires TempsOwned(s) && e.Begin? && Enabled(s, e)
    ensures TempsOwned(Apply(sum, s, e))
  {
  }

  lemma BeginKeeps(sum: Checksum, s: State, e: Event)
    requires Inv(sum, s) && e.Begin? && Enabled(s, e)
    ensures Inv(sum, Apply(sum, s, e))
  {
    var t := Apply(sum, s, e);
    BeginLocks(sum, s, e);
    BeginTemps(sum, s, e);
    forall pid | pid in t.procs
      ensures Knows(sum, t, t.procs[pid])
    {
      if pid != e.pid {
        KnowsStill(sum, s, t, s.procs[pid], s.procs[pid].inside);
      }
    }
  }

  lemma AcquireGlobalLock(sum: Checksum, s: State, e: Event)
    requires GlobalLockHeld(s) && e.Acquire? && Enabled(s, e)
    ensures GlobalLockHeld(Apply(sum, s, e))
  {
  }

  lemma AcquireFileLocks(sum: Checksum, s: State, e: Event)
    requires FileLocksHeld(s) && e.Acquire? && Enabled(s, e)
    ensures FileLocksHeld(Apply(sum, s, e))
  {
  }

  lemma AcquireTemps(sum: Checksum, s: State, e: Event)
    requires TempsOwned(s) && e.Acquire? && Enabled(s, e)
    ensures TempsOwned(Apply(sum, s, e))
  {
  }

  lemma AcquireKnows(sum: Checksum, s: State, e: Event)
    requires AllKnow(sum, s) && e.Acquire? && Enabled(s, e)
    ensures AllKnow(sum, Apply(sum, s, e))
  {
    var t := Apply(sum, s, e);
    forall pid | pid in t.procs
      ensures Knows(sum, t, t.procs[pid])
    {
      KnowsStill(sum, s, t, s.procs[pid], t.procs[pid].inside);
    }
  }

  lemma AcquireKeeps(sum: Checksum, s: State, e: Event)
    requires Inv(sum, s) && e.Acquire? && Enabled(s, e)
    ensures Inv(sum, Apply(sum, s, e))
  {
    AcquireGlobalLock(sum, s, e);
    AcquireFileLocks(sum, s, e);
    AcquireTemps(sum, s, e);
    AcquireKnows(sum, s, e);
  }

  lemma CleanTempKeeps(sum: Checksum, s: State, e: Event)
    requires Inv(sum, s) && e.CleanTemp? && Enabled(s, e)
    ensures Inv(sum, Apply(sum, s, e))
  {
    var t := Apply(sum, s, e);
    assert TempsOwned(t);
    assert FilesWhole(sum, t);
    forall pid | pid in t.procs
      ensures Knows(sum, t, t.procs[pid])
    {
      assert Knows(sum, s, s.procs[pid]);
    }
  }

  lemma EventKeeps(sum: Checksum, s: State, e: Event)
    requires OneLine(sum) && Inv(sum, s) && Enabled(s, e)
    ensures Inv(sum, Apply(sum, s, e))
  {
    match e
    case Begin(_, _) => BeginKeeps(sum, s, e);
    case Acquire(_) => AcquireKeeps(sum, s, e);
    case Act(pid, ok, n) => ActKeeps(sum, s, pid, ok, n);
    case CleanTemp(_) => CleanTempKeeps(sum, s, e);
    case Crash =>
  }

  /******* Over every run *******/

  lemma {:induction false} RunKeeps(sum: Checksum, events: seq<Event>)
    requires OneLine(sum)
    ensures Inv(sum, After(sum, events))
  {
    if events != [] {
      var s, e := After(sum, events[..|events| - 1]), events[|events| - 1];
      RunKeeps(sum, events[..|events| - 1]);
      if Enabled(s, e) {
        EventKeeps(sum, s, e);
      }
    }
  }

  /** Data is committed only by a write that was begun for that name. */
  ghost predicate Asked(events: seq<Event>, req: Request) {
    exists i :: 0 <= i < |events| && events[i].Begin? && events[i].req == req
  }

  ghost predicate AskedData(events: seq<Event>, name: string, data: Bytes) {
    Asked(events, Write(name, data)) || Asked(events, Stream(name, data))
  }

  lemma AskedMore(events: seq<Event>, e: Event, req: Request)
    requires Asked(events, req)
    ensures Asked(events + [e], req)
  {
    var i :| 0 <= i < |events| && events[i].Begin? && events[i].req == req;
    assert (events + [e])[i] == events[i];
  }

  ghost predicate AllAsked(events: seq<Event>, s: State) {
    && (forall pid :: pid in s.procs ==> Asked(events, s.procs[pid].req))
    && (forall name :: name in s.committed ==> AskedData(events, name, s.committed[name]))
  }

  lemma PerformAsks(sum: Checksum, s: State, p: Proc, ok: bool, n: nat)
    ensures var (t, q) := Perform(sum, s, p, ok, n);
            && q.req == p.req
            && (|| t.committed == s.committed
                || t.committed == s.committed - {p.req.name}
                || (p.req.Writes() && t.committed == s.committed[p.req.name := p.req.data]))
  {
  }

  lemma ActAsked(sum: Checksum, events: seq<Event>, s: State, pid: Pid, ok: bool, n: nat)
    requires AllAsked(events, s) && Enabled(s, Act(pid, ok, n))
    ensures AllAsked(events, Apply(sum, s, Act(pid, ok, n)))
  {
    PerformAsks(sum, s, s.procs[pid], ok, n);
  }

  lemma {:induction false} RunAsked(sum: Checksum, events: seq<Event>)
    ensures AllAsked(events, After(sum, events))
  {
    if events != [] {
      var front, e := events[..|events| - 1], events[|events| - 1];
      var s := After(sum, front);
      RunAsked(sum, front);
      assert events == front + [e];
      assert AllAsked(events, s) by {
        forall req | Asked(front, req)
          ensures Asked(events, req)
        {
          AskedMore(front, e, req);
        }
      }
      if Enabled(s, e) {
        match e
        case Begin(_, _) => assert events[|front|] == e;
        case Act(pid, ok, n) => ActAsked(sum, events, s, pid, ok, n);
        case Acquire(_) =>
        case CleanTemp(_) =>
        case Crash =>
      }
    }
  }

  /** After any events, crashes included, a final path is absent or holds the whole frame of the data of one write begun
      for it, so that reading it succeeds. */
  lemma FinalPathsWhole(sum: Checksum, events: seq<Event>, name: string)
    requires OneLine(sum)
    ensures var s := After(sum, events);
            Final(name) in s.files ==>
              && name in s.committed
              && AskedData(events, name, s.committed[name])
              && Unframe(sum, s.files[Final(name)]) == Data(s.committed[name])
  {
    RunKeeps(sum, events);
    RunAsked(sum, events);
    var s := After(sum, events);
    if Final(name) in s.files {
      UnframeFrame(sum, s.committed[name]);
    }
  }

  /******* When an operation fails *******/

  /** Between the creation of the temp file and its rename. */
  predicate Writing(at: Label) {
    at.PutSum? || at.PutData? || at.DoRename? || at.Commit?
  }

  /** The failure of this step is an error of the operation. Locks do not fail, an error of the cleanup is ignored, and
      removing what is not there is another error. */
  predicate CanFail(s: State, p: Proc) {
    !p.at.LockFile? && !p.at.Cleanup? && !p.at.UnlockFile? && (p.at.DoRemove? ==> Final(p.req.name) in s.files)
  }

  /** Since its Begin a step of this operation has failed, or the cleaning of temp files has taken the one it was writing. */
  ghost predicate Troubled(sum: Checksum, events: seq<Event>, pid: Pid) {
    if events == [] then false
    else
      var front, e := events[..|events| - 1], events[|events| - 1];
      StillTroubled(After(sum, front), e, pid, Troubled(sum, front, pid))
  }

  ghost predicate StillTroubled(s: State, e: Event, pid: Pid, before: bool) {
    if !Enabled(s, e) then before
    else
      match e
      case Begin(p, _) => p != pid && before
      case Acquire(_) => before
      case Act(p, ok, _) => before || (p == pid && !ok && CanFail(s, s.procs[p]))
      case CleanTemp(ids) => before || (pid in s.procs && Writing(s.procs[pid].at) && s.procs[pid].temp in ids)
      case Crash => false
  }

  /** An operation in trouble has failed already, or will when it comes to rename a file that is gone. */
  ghost predicate FailsRightly(s: State, troubled: bool, p: Proc) {
    troubled <==> p.outcome.Failed? || (Writing(p.at) && Temp(p.temp) !in s.files)
  }

  lemma StartFailsRightly(sum: Checksum, s: State, p: Proc, ok: bool, n: nat, troubled: bool)
    requires Knows(sum, s, p) && FailsRightly(s, troubled, p) && !Writing(p.at) && !Over(p.at) && FilesWhole(sum, s)
    ensures var (t, q) := Perform(sum, s, p, ok, n);
            FailsRightly(t, troubled || (!ok && CanFail(s, p)), q)
  {
  }

  lemma WritingFailsRightly(sum: Checksum, s: State, p: Proc, ok: bool, n: nat, troubled: bool)
    requires Knows(sum, s, p) && FailsRightly(s, troubled, p) && Writing(p.at)
    ensures var (t, q) := Perform(sum, s, p, ok, n);
            FailsRightly(t, troubled || (!ok && CanFail(s, p)), q)
  {
  }

  lemma OthersFailRightly(s: State, p: Proc, t: State, q: Proc, other: Proc, troubled: bool)
    requires Moved(s, p, t, q) && FailsRightly(s, troubled, other)
    requires OwnsTemp(other) ==> other.temp < s.nextTemp && (OwnsTemp(p) ==> other.temp != p.temp)
    ensures FailsRightly(t, troubled, other)
  {
    if OwnsTemp(other) {
      assert SameAt(s, t, Temp(other.temp));
    }
  }

  lemma ActFailsRightly(sum: Checksum, s: State, pid: Pid, ok: bool, n: nat, other: Pid, troubled: bool)
    requires OneLine(sum) && Inv(sum, s) && Enabled(s, Act(pid, ok, n)) && other in s.procs
    requires FailsRightly(s, troubled, s.procs[other])
    ensures var t := Apply(sum, s, Act(pid, ok, n));
            FailsRightly(t, troubled || (pid == other && !ok && CanFail(s, s.procs[pid])), t.procs[other])
  {
    var p := s.procs[pid];
    var (t, q) := Perform(sum, s, p, ok, n);
    if pid != other {
      PerformMovesWhole(sum, s, p, ok, n);
      OthersFailRightly(s, p, t, q, s.procs[other], troubled);
    } else if Writing(p.at) {
      WritingFailsRightly(sum, s, p, ok, n, troubled);
    } else {
      StartFailsRightly(sum, s, p, ok, n, troubled);
    }
  }

  /** At every moment of every run, exactly the operations in trouble have failed or are about to. */
  lemma {:induction false} RunFailsRightly(sum: Checksum, events: seq<Event>, pid: Pid)
    requires OneLine(sum) && pid in After(sum, events).procs
    ensures FailsRightly(After(sum, events), Troubled(sum, events, pid), After(sum, events).procs[pid])
  {
    if events != [] {
      var front, e := events[..|events| - 1], events[|events| - 1];
      var s := After(sum, front);
      RunKeeps(sum, front);
      if pid in s.procs {
        RunFailsRightly(sum, front, pid);
      }
      EventFailsRightly(sum, s, e, pid, Troubled(sum, front, pid));
    }
  }

  lemma EventFailsRightly(sum: Checksum, s: State, e: Event, pid: Pid, troubled: bool)
    requires OneLine(sum) && Inv(sum, s) && pid in Next(sum, s, e).procs
    requires pid in s.procs ==> FailsRightly(s, troubled, s.procs[pid])
    ensures FailsRightly(Next(sum, s, e), StillTroubled(s, e, pid, troubled), Next(sum, s, e).procs[pid])
  {
    if Enabled(s, e) && e.Act? {
      ActFailsRightly(sum, s, e.pid, e.ok, e.n, pid, troubled);
    }
  }

  /** A read that ends without an error has seen the data of the last committed rename, or that there is none; it never sees
      corruption. A finished write is committed; a finished remove has removed, or there was nothing to remove, which is an
      error. Any other failure has its cause in a step that failed or a temp file that was taken, and these always fail. */
  lemma OutcomesTrue(sum: Checksum, events: seq<Event>, pid: Pid)
    requires OneLine(sum) && pid in After(sum, events).procs && After(sum, events).procs[pid].at.UnlockFile?
    ensures var s := After(sum, events);
            var p := s.procs[pid];
            match p.outcome
            case Got(r) => p.req.Read? && p.req.name in s.committed && r == Data(s.committed[p.req.name])
            case Absent => (p.req.Read? || p.req.Remove?) && p.req.name !in s.committed
            case Wrote => p.req.Writes() && p.req.name in s.committed && s.committed[p.req.name] == p.req.data
            case Removed => p.req.Remove? && p.req.name !in s.committed
            case Failed => Troubled(sum, events, pid)
            case Pending => false
    ensures Troubled(sum, events, pid) ==> After(sum, events).procs[pid].outcome.Failed?
  {
    RunKeeps(sum, events);
    RunFailsRightly(sum, events, pid);
  }

  /** What it has come to in the end: each request has its own kinds of success. */
  lemma EndsAsAsked(sum: Checksum, events: seq<Event>, pid: Pid)
    requires OneLine(sum) && pid in After(sum, events).procs
    requires var at := After(sum, events).procs[pid].at; at.UnlockFile? || Over(at)
    ensures var p := After(sum, events).procs[pid];
            if Troubled(sum, events, pid) then p.outcome.Failed?
            else
              match p.req
              case Write(_, _) => p.outcome.Wrote?
              case Stream(_, _) => p.outcome.Wrote?
              case Read(_) => p.outcome.Got? || p.outcome.Absent?
              case Remove(_) => p.outcome.Removed? || p.outcome.Absent?
  {
    RunKeeps(sum, events);
    RunFailsRightly(sum, events, pid);
  }

  /******* Operations end *******/

  /** How many actions are left at most. */
  function Rank(at: Label): nat {
    match at
    case LockFile => 10
    case Mkdir => 9
    case MakeTemp => 8
    case OpenStream => 8
    case Create => 7
    case PutSum => 6
    case PutData => 5
    case DoRename => 4
    case Commit => 4
    case CheckExists => 4
    case OpenFile => 3
    case Cleanup => 2
    case ReadAll => 2
    case DoRemove => 2
    case UnlockFile => 1
    case Finished => 0
    case Stranded => 0
  }

  /** Every action takes its operation further, and nobody else's. */
  lemma ActionsAreProgress(sum: Checksum, s: State, pid: Pid, ok: bool, n: nat, other: Pid)
    requires Enabled(s, Act(pid, ok, n)) && other in s.procs
    ensures var t := Apply(sum, s, Act(pid, ok, n));
            && other in t.procs
            && (if other == pid then Rank(t.procs[pid].at) < Rank(s.procs[pid].at) else t.procs[other] == s.procs[other])
  {
  }

  /** The actions of an operation since its Begin. */
  function Actions(sum: Checksum, events: seq<Event>, pid: Pid): nat {
    if events == [] then 0
    else
      var front, e := events[..|events| - 1], events[|events| - 1];
      if !Enabled(After(sum, front), e) then Actions(sum, front, pid)
      else if e.Crash? || (e.Begin? && e.pid == pid) then 0
      else Actions(sum, front, pid) + if e.Act? && e.pid == pid then 1 else 0
  }

  /** No operation takes more than ten actions. */
  lemma {:induction false} OperationsEnd(sum: Checksum, events: seq<Event>, pid: Pid)
    requires pid in After(sum, events).procs
    ensures Actions(sum, events, pid) + Rank(After(sum, events).procs[pid].at) <= 10
  {
    if events != [] {
      var front, e := events[..|events| - 1], events[|events| - 1];
      var s := After(sum, front);
      if pid in s.procs {
        OperationsEnd(sum, front, pid);
        if Enabled(s, e) && e.Act? {
          ActionsAreProgress(sum, s, e.pid, e.ok, e.n, pid);
        }
      }
    }
  }

  /******* Temp files are not left behind *******/

  ghost predicate TempIsOwned(s: State, id: nat) {
    exists pid :: pid in s.procs && OwnsTemp(s.procs[pid]) && s.procs[pid].temp == id
  }

  ghost predicate NoTempLeft(s: State) {
    forall id: nat :: Temp(id) in s.files ==> TempIsOwned(s, id)
  }

  lemma ActLeavesNoTemp(sum: Checksum, s: State, pid: Pid, n: nat)
    requires OneLine(sum) && Inv(sum, s) && NoTempLeft(s) && Enabled(s, Act(pid, true, n))
    ensures NoTempLeft(Apply(sum, s, Act(pid, true, n)))
  {
    var p := s.procs[pid];
    var (t, q) := Perform(sum, s, p, true, n);
    PerformMovesWhole(sum, s, p, true, n);
    OwnTempKept(sum, s, p, n);
    var u := Land(s, pid, t, q);
    forall id: nat | Temp(id) in u.files
      ensures TempIsOwned(u, id)
    {
      TempLands(s, pid, t, q, id);
    }
  }

  lemma TempLands(s: State, pid: Pid, t: State, q: Proc, id: nat)
    requires pid in s.procs && NoTempLeft(s) && TempsOwned(s) && Temp(id) in t.files && Moved(s, s.procs[pid], t, q)
    requires OwnsTemp(s.procs[pid]) && !OwnsTemp(q) && id == s.procs[pid].temp ==> Temp(id) !in t.files
    requires id >= s.nextTemp ==> Temp(id) in s.files || (OwnsTemp(q) && id == q.temp)
    ensures TempIsOwned(Land(s, pid, t, q), id)
  {
    var u := Land(s, pid, t, q);
    if OwnsTemp(q) && id == q.temp {
      assert pid in u.procs && OwnsTemp(u.procs[pid]) && u.procs[pid].temp == id;
    } else {
      assert SameAt(s, t, Temp(id));
      var owner :| owner in s.procs && OwnsTemp(s.procs[owner]) && s.procs[owner].temp == id;
      assert owner in u.procs && OwnsTemp(u.procs[owner]) && u.procs[owner].temp == id;
    }
  }

  /** Who lets go of its temp file has renamed or removed it. */
  lemma OwnTempKept(sum: Checksum, s: State, p: Proc, n: nat)
    requires Knows(sum, s, p) && !Over(p.at)
    ensures var (t, q) := Perform(sum, s, p, true, n);
            && (OwnsTemp(p) && !OwnsTemp(q) && p.temp < s.nextTemp ==> Temp(p.temp) !in t.files)
            && (forall id: nat :: id >= s.nextTemp && Temp(id) in t.files ==> Temp(id) in s.files || (OwnsTemp(q) && id == q.temp))
  {
  }

  /** Without failures and crashes every temp file belongs to an operation under way. */
  lemma {:induction false} TempsGoAway(sum: Checksum, events: seq<Event>)
    requires OneLine(sum) && forall i :: 0 <= i < |events| ==> !events[i].Crash? && (events[i].Act? ==> events[i].ok)
    ensures NoTempLeft(After(sum, events))
  {
    if events != [] {
      var front, e := events[..|events| - 1], events[|events| - 1];
      var s := After(sum, front);
      RunKeeps(sum, front);
      TempsGoAway(sum, front);
      if Enabled(s, e) {
        EventLeavesNoTemp(sum, s, e);
      }
    }
  }

  /** What a crash has left is removed by CleanTemp, and nothing else is. */
  lemma CleanAfterCrash(sum: Checksum, events: seq<Event>, ids: set<nat>)
    ensures var s, t := After(sum, events), After(sum, events + [Crash] + [CleanTemp(ids)]);
            && (forall id :: id in ids ==> Temp(id) !in t.files)
            && (forall path: Path :: !(path.Temp? && path.id in ids) ==>
                  (path in t.files <==> path in s.files) && (path in t.files ==> t.files[path] == s.files[path]))
  {
    assert (events + [Crash])[..|events|] == events;
    assert (events + [Crash] + [CleanTemp(ids)])[..|events| + 1] == events + [Crash];
  }

  lemma EventLeavesNoTemp(sum: Checksum, s: State, e: Event)
    requires OneLine(sum) && Inv(sum, s) && NoTempLeft(s) && Enabled(s, e) && !e.Crash? && (e.Act? ==> e.ok)
    ensures NoTempLeft(Apply(sum, s, e))
  {
    if e.Act? {
      ActLeavesNoTemp(sum, s, e.pid, e.n);
    } else {
      OwnersStay(s, Apply(sum, s, e));
    }
  }

  lemma OwnersStay(s: State, t: State)
    requires NoTempLeft(s) && forall id: nat :: Temp(id) in t.files ==> Temp(id) in s.files
    requires forall pid :: pid in s.procs && OwnsTemp(s.procs[pid]) ==>
               pid in t.procs && OwnsTemp(t.procs[pid]) && t.procs[pid].temp == s.procs[pid].temp
    ensures NoTempLeft(t)
  {
    forall id: nat | Temp(id) in t.files
      ensures TempIsOwned(t, id)
    {
      var owner :| owner in s.procs && OwnsTemp(s.procs[owner]) && s.procs[owner].temp == id;
      assert owner in t.procs && OwnsTemp(t.procs[owner]) && t.procs[owner].temp == id;
    }
  }

  /******* No deadlock *******/

  predicate CanStep(s: State, pid: Pid) {
    Enabled(s, Acquire(pid)) || Enabled(s, Act(pid, true, 0))
  }

  /** The file lock comes first: whoever holds the global lock holds its file lock, and waits for nothing. */
  lemma LockOrder(sum: Checksum, s: State, pid: Pid)
    requires Inv(sum, s) && pid in s.writer + s.readers
    ensures HoldsFile(s.procs[pid]) && CanStep(s, pid)
  {
  }

  /** Waiting for a file lock that a failed Close has kept. */
  predicate BehindStranded(s: State, p: Proc) {
    && p.at.LockFile? && p.req.name in s.fileLocks && s.fileLocks[p.req.name] in s.procs
    && s.procs[s.fileLocks[p.req.name]].at.Stranded?
  }

  /** Unfinished, and not waiting behind a failed Close. */
  predicate Unblocked(s: State, pid: Pid) {
    pid in s.procs && !Over(s.procs[pid].at) && !BehindStranded(s, s.procs[pid])
  }

  /** Some operation can step exactly when not every unfinished one waits behind a failed Close. */
  lemma NoDeadlock(sum: Checksum, events: seq<Event>)
    requires OneLine(sum)
    ensures var s := After(sum, events);
            (exists pid :: pid in s.procs && CanStep(s, pid)) <==> (exists pid :: Unblocked(s, pid))
  {
    RunKeeps(sum, events);
    var s := After(sum, events);
    if pid :| Unblocked(s, pid) {
      var other := SomeoneSteps(sum, s, pid);
      assert CanStep(s, other);
    }
    if pid :| pid in s.procs && CanStep(s, pid) {
      SteppersAreUnblocked(s, pid);
    }
  }

  lemma SteppersAreUnblocked(s: State, pid: Pid)
    requires pid in s.procs && CanStep(s, pid)
    ensures Unblocked(s, pid)
  {
  }

  lemma SomeoneSteps(sum: Checksum, s: State, pid: Pid) returns (other: Pid)
    requires Inv(sum, s) && Unblocked(s, pid)
    ensures other in s.procs && CanStep(s, other)
  {
    if s.writer + s.readers != {} {
      other :| other in s.writer + s.readers;
      LockOrder(sum, s, other);
    } else if s.procs[pid].at.LockFile? && s.procs[pid].req.name in s.fileLocks {
      other := s.fileLocks[s.procs[pid].req.name];
    } else {
      other := pid;
    }
  }

  /** A failed Close that still holds its file lock. */
  ghost predicate Blocked(s: State, pid: Pid, name: string) {
    && pid in s.procs && s.procs[pid].at.Stranded? && s.procs[pid].req.name == name
    && name in s.fileLocks && s.fileLocks[name] == pid
  }

  lemma StrandedStays(sum: Checksum, s: State, e: Event, pid: Pid, name: string)
    requires FileLocksHeld(s) && Enabled(s, e) && !e.Crash? && Blocked(s, pid, name)
    ensures Blocked(Apply(sum, s, e), pid, name) && SameCommit(s, Apply(sum, s, e), name)
  {
    if e.Act? {
      PerformCommits(sum, s, s.procs[e.pid], e.ok, e.n);
    }
  }

  lemma PerformCommits(sum: Checksum, s: State, p: Proc, ok: bool, n: nat)
    requires !Over(p.at)
    ensures var (t, q) := Perform(sum, s, p, ok, n);
            forall name :: name != p.req.name || p.at.LockFile? ==> SameCommit(s, t, name)
  {
  }

  /** Nothing but a crash ends it, and until then what is committed under its name stays as it is. */
  lemma {:induction false} StrandedForGood(sum: Checksum, before: seq<Event>, more: seq<Event>, pid: Pid, name: string)
    requires OneLine(sum) && Blocked(After(sum, before), pid, name)
    requires forall i :: 0 <= i < |more| ==> !more[i].Crash?
    ensures Blocked(After(sum, before + more), pid, name)
    ensures SameCommit(After(sum, before), After(sum, before + more), name)
    decreases |more|
  {
    if more == [] {
      assert before + more == before;
    } else {
      var front, e := more[..|more| - 1], more[|more| - 1];
      StrandedForGood(sum, before, front, pid, name);
      AfterSnoc(sum, before + front, e);
      assert before + front + [e] == before + more;
      RunKeeps(sum, before + front);
      if Enabled(After(sum, before + front), e) {
        StrandedStays(sum, After(sum, before + front), e, pid, name);
      }
    }
  }

  lemma AfterSnoc(sum: Checksum, events: seq<Event>, e: Event)
    ensures After(sum, events + [e]) == Next(sum, After(sum, events), e)
  {
    assert (events + [e])[..|events|] == events;
  }

  /** One operation alone, as the storage was at first but for a temp file. */
  ghost predicate Alone(s: State, at: Label, inside: bool, req: Request) {
    && s.procs.Keys == {0} && s.procs[0].at == at && s.procs[0].inside == inside && s.procs[0].req == req
    && s.fileLocks == (if at.LockFile? then map[] else map[req.name := 0])
    && s.writer == (if inside then {0} else {}) && s.readers == {}
  }

  lemma AloneActs(sum: Checksum, s: State, e: Event, at: Label, inside: bool, req: Request)
    requires Alone(s, at, inside, req) && req.Stream? && e.Act? && e.pid == 0
    requires inside <==> Exclusive(at)
    ensures var t := Next(sum, s, e);
            && (at.LockFile? ==> Alone(t, OpenStream, false, req))
            && (at.OpenStream? && e.ok ==> Alone(t, Create, false, req))
            && (at.Create? && !e.ok ==> Alone(t, Stranded, false, req))
  {
  }

  lemma AloneAcquires(sum: Checksum, s: State, e: Event, at: Label, req: Request)
    requires Alone(s, at, false, req) && req.Stream? && e.Acquire? && e.pid == 0 && Exclusive(at)
    ensures Alone(Next(sum, s, e), at, true, req)
  {
  }

  /** One failed Close, and the next reader of the file waits for good. */
  lemma FailedCloseBlocks(sum: Checksum, name: string, data: Bytes)
    ensures var events := [Begin(0, Stream(name, data)), Act(0, true, 0), Acquire(0), Act(0, true, 0)]
                          + [Acquire(0), Act(0, false, 0), Begin(1, Read(name))];
            var s := After(sum, events);
            s.procs.Keys == {0, 1} && Blocked(s, 0, name) && BehindStranded(s, s.procs[1])
  {
    var req := Stream(name, data);
    var e1 := [Begin(0, req)];
    AfterSnoc(sum, [], e1[0]);
    assert [] + e1 == e1;
    assert Alone(After(sum, e1), LockFile, false, req);
    var e2 := e1 + [Act(0, true, 0)];
    AfterSnoc(sum, e1, Act(0, true, 0));
    AloneActs(sum, After(sum, e1), Act(0, true, 0), LockFile, false, req);
    var e3 := e2 + [Acquire(0)];
    AfterSnoc(sum, e2, Acquire(0));
    AloneAcquires(sum, After(sum, e2), Acquire(0), OpenStream, req);
    var e4 := e3 + [Act(0, true, 0)];
    AfterSnoc(sum, e3, Act(0, true, 0));
    AloneActs(sum, After(sum, e3), Act(0, true, 0), OpenStream, true, req);
    var e5 := e4 + [Acquire(0)];
    AfterSnoc(sum, e4, Acquire(0));
    AloneAcquires(sum, After(sum, e4), Acquire(0), Create, req);
    var e6 := e5 + [Act(0, false, 0)];
    AfterSnoc(sum, e5, Act(0, false, 0));
    AloneActs(sum, After(sum, e5), Act(0, false, 0), Create, true, req);
    AfterSnoc(sum, e6, Begin(1, Read(name)));
    assert e6 + [Begin(1, Read(name))] == [e1[0], Act(0, true, 0), Acquire(0), Act(0, true, 0)]
                                          + [Acquire(0), Act(0, false, 0), Begin(1, Read(name))];
  }
}
