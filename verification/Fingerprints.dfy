/** Fingerprints of files, and whether a file still matches one. */
module Fingerprints {
  import opened Files
  import opened Options

  type Mode = bv16

  const FILE_TYPE: Mode := 0xF000
  const DIRECTORY: Mode := 0x4000
  const REGULAR: Mode := 0x8000
  const SYMLINK: Mode := 0xA000

  const OWNER_EXECUTE: Mode := 0x0040
  const DEFAULT_BITS: Mode := 0x01A4
  const EXECUTABLE_BITS: Mode := 0x0049
  const MODE_MASK: Mode := 0xFC00

  /** The part of a mode that fingerprints keep track of. */
  function Normalize(mode: Mode): Mode {
    DEFAULT_BITS | (if mode & OWNER_EXECUTE != 0 then EXECUTABLE_BITS else 0) | (mode & MODE_MASK)
  }

  /** The same type, set-id bits, and permission of the owner to execute. */
  ghost predicate SameMode(a: Mode, b: Mode) {
    a & 0xFC00 == b & 0xFC00 && (a & 0x0040 != 0 <==> b & 0x0040 != 0)
  }

  /**
   A normalised mode is never zero, has the type and the set-id bits, and has the permissions 0755 or 0644.
   A change of type, set-id bits or executability shows, and nothing else.
   */
  lemma {:induction false} NormalizedMode(a: Mode, b: Mode)
    ensures Normalize(a) != 0 && Normalize(a) & 0xFC00 == a & 0xFC00
    ensures Normalize(a) & 0x03FF == if a & 0x0040 != 0 then 0x01ED else 0x01A4
    ensures Normalize(a) == Normalize(b) <==> SameMode(a, b)
    ensures Normalize(Normalize(a)) == Normalize(a)
  {
  }

  predicate IsHashed(mode: Mode) {
    mode & FILE_TYPE == DIRECTORY || mode & FILE_TYPE == SYMLINK || mode & FILE_TYPE == REGULAR
  }

  /** A directory, a regular file or a symbolic link. */
  ghost predicate HasContent(mode: Mode) {
    mode & 0xF000 == 0x4000 || mode & 0xF000 == 0x8000 || mode & 0xF000 == 0xA000
  }

  /** These are the files that are hashed, which normalising the mode does not change. */
  lemma {:induction false} HashedTypes(mode: Mode)
    ensures IsHashed(mode) <==> HasContent(mode)
    ensures IsHashed(Normalize(mode)) <==> HasContent(mode)
  {
    assert Normalize(mode) & 0xF000 == mode & 0xF000;
  }

  type Content = seq<int>

  /** What an examination of a path finds: the bytes, entries or target of a file are its content. */
  datatype File = File(ino: nat, dev: nat, mode: Mode, size: nat, content: Content, mtime: int)

  /** A hash without collisions. Files of other types have no hash. */
  datatype Hash = Zero | HashOf(size: nat, mode: Mode, content: Content)

  datatype Stat = Stat(size: nat, ino: nat, mode: Mode, mtime: int)

  const NO_STAT := Stat(0, 0, 0, 0)

  datatype Fingerprint = Fingerprint(stat: Stat, racilyClean: bool, hash: Hash)

  function FileIdOf(file: Option<File>): FileId {
    if file.None? then NO_FILE else FileId(file.value.ino, file.value.dev)
  }

  /** Overwrites `stat` with that of the file, or leaves it alone if there is none. */
  function FromStat(file: Option<File>, stat: Stat): Stat {
    match file
    case None => stat
    case Some(f) => Stat(f.size, f.ino, Normalize(f.mode), f.mtime)
  }

  predicate IsRacilyClean(stat: Stat, timestamp: int) {
    stat.mtime >= timestamp
  }

  function ComputeHash(file: Option<File>, size: nat, mode: Mode): Hash {
    if IsHashed(mode) && file.Some? then HashOf(size, mode, file.value.content) else Zero
  }

  /**
   There is no difference to a build: both files are missing, or they have the same size and mode, and
   the same content if they are directories, regular files or symbolic links.
   */
  ghost predicate LooksSame(before: Option<File>, now: Option<File>) {
    if before.None? || now.None? then before == now
    else
      && before.value.size == now.value.size && SameMode(before.value.mode, now.value.mode)
      && (HasContent(now.value.mode) ==> before.value.content == now.value.content)
  }

  /** The fingerprint of a file at a point in time. */
  ghost function Taken(file: Option<File>, timestamp: int): Fingerprint {
    var stat := FromStat(file, NO_STAT);
    Fingerprint(stat, IsRacilyClean(stat, timestamp), ComputeHash(file, stat.size, stat.mode))
  }

  /** The mode in a fingerprint tells whether there was a file; a missing one has neither metadata nor a hash. */
  lemma {:induction false} TakenMissing(file: Option<File>, timestamp: int)
    ensures Taken(file, timestamp).stat.mode == 0 <==> file.None?
    ensures file.None? ==> Taken(file, timestamp) == Fingerprint(Stat(0, 0, 0, 0), timestamp <= 0, Zero)
  {
    if file.Some? {
      NormalizedMode(file.value.mode, 0);
    }
  }

  method TakeFingerprint(file: Option<File>, timestamp: int) returns (fingerprint: Fingerprint, fileId: FileId)
    ensures fingerprint == Taken(file, timestamp) && fileId == FileIdOf(file)
  {
    fingerprint := Fingerprint(NO_STAT, false, Zero);
    fileId := FileIdOf(file);
    fingerprint := fingerprint.(stat := FromStat(file, fingerprint.stat));
    fingerprint := fingerprint.(racilyClean := IsRacilyClean(fingerprint.stat, timestamp));
    fingerprint := fingerprint.(hash := ComputeHash(file, fingerprint.stat.size, fingerprint.stat.mode));
  }

  /** Whether the metadata alone is enough to tell that nothing has changed. */
  ghost predicate Unchanged(fingerprint: Fingerprint, file: Option<File>) {
    FromStat(file, NO_STAT) == fingerprint.stat && (!fingerprint.racilyClean || fingerprint.stat.mode == 0)
  }

  ghost predicate Clean(fingerprint: Fingerprint, file: Option<File>) {
    Unchanged(fingerprint, file) ||
    (var stat := FromStat(file, NO_STAT);
     && stat.size == fingerprint.stat.size && stat.mode == fingerprint.stat.mode
     && ComputeHash(file, stat.size, stat.mode) == fingerprint.hash)
  }

  /** Compares a file with a fingerprint. `newHash` is `hash`, unless the file had to be hashed. */
  method CompareFingerprint(file: Option<File>, fingerprint: Fingerprint, hash: Hash)
    returns (result: MatchesResult, newHash: Hash)
    ensures result.clean == Clean(fingerprint, file) && result.fileId == FileIdOf(file)
    ensures result.shouldUpdate <==>
      var stat := FromStat(file, NO_STAT);
      && stat.size == fingerprint.stat.size && stat.mode == fingerprint.stat.mode
      && (stat != fingerprint.stat || (fingerprint.racilyClean && fingerprint.stat.mode != 0))
    ensures newHash ==
      if result.shouldUpdate then ComputeHash(file, fingerprint.stat.size, fingerprint.stat.mode) else hash
  {
    newHash := hash;
    var stat := FromStat(file, NO_STAT);
    result := MatchesResult(false, false, FileIdOf(file));
    if stat == fingerprint.stat && (!fingerprint.racilyClean || fingerprint.stat.mode == 0) {
      result := result.(clean := true);
    } else {
      if stat.size == fingerprint.stat.size && stat.mode == fingerprint.stat.mode {
        newHash := ComputeHash(file, fingerprint.stat.size, fingerprint.stat.mode);
        result := result.(clean := FingerprintMatches(fingerprint, stat, newHash), shouldUpdate := true);
      }
    }
  }

  predicate FingerprintMatches(original: Fingerprint, stat: Stat, hash: Hash) {
    original.stat.size == stat.size && original.stat.mode == stat.mode && original.hash == hash
  }

  /** Takes a fingerprint again, without hashing the file if that can be avoided. */
  method RetakeFingerprint(file: Option<File>, timestamp: int, previous: Fingerprint)
    returns (fingerprint: Fingerprint, fileId: FileId)
    ensures fileId == FileIdOf(file)
    ensures Honest(previous, file) ==> fingerprint == Taken(file, timestamp)
    ensures Unchanged(previous, file) ==>
      (fingerprint == previous <==> previous.racilyClean == IsRacilyClean(previous.stat, timestamp))
  {
    fingerprint := previous;
    fileId := FileIdOf(file);
    var result, hash := CompareFingerprint(file, previous, fingerprint.hash);
    fingerprint := fingerprint.(hash := hash);
    if result.clean || result.shouldUpdate {
      fingerprint := fingerprint.(stat := FromStat(file, fingerprint.stat));
      fingerprint := fingerprint.(racilyClean := IsRacilyClean(fingerprint.stat, timestamp));
      if Honest(previous, file) {
        StillTaken(previous, file);
      }
    } else {
      fingerprint, fileId := TakeFingerprint(file, timestamp);
    }
  }

  /**
   * A fingerprint was taken of some file, and metadata is not deceptive: if it is all the same, and old enough at the
   * time when the fingerprint was taken, then so is the content.
   */
  ghost predicate Honest(fingerprint: Fingerprint, now: Option<File>) {
    exists before: Option<File>, timestamp: int ::
      fingerprint == Taken(before, timestamp) && NotDeceptive(before, timestamp, now)
  }

  ghost predicate NotDeceptive(before: Option<File>, timestamp: int, now: Option<File>) {
    && before.Some? && now.Some?
    && before.value.ino == now.value.ino && before.value.mtime == now.value.mtime < timestamp ==>
      before.value.content == now.value.content && before.value.size == now.value.size
  }

  lemma {:induction false} StillTaken(fingerprint: Fingerprint, now: Option<File>)
    requires Honest(fingerprint, now)
    ensures Unchanged(fingerprint, now) ==> fingerprint.hash == Taken(now, 0).hash
    ensures fingerprint.stat.mode == 0 ==> fingerprint.stat == NO_STAT
  {
    var before, timestamp :| fingerprint == Taken(before, timestamp) && NotDeceptive(before, timestamp, now);
    if before.Some? {
      NormalizedMode(before.value.mode, before.value.mode);
    }
    if now.Some? {
      NormalizedMode(now.value.mode, now.value.mode);
    }
  }

  /** The flag that decides on an exact copy is right whenever the clock has not been set back in between. */
  lemma {:induction false} RetakenLaterIsCopy(before: Option<File>, taken: int, file: Option<File>, timestamp: int)
    requires Unchanged(Taken(before, taken), file) && taken <= timestamp && before.Some?
    ensures Taken(before, taken).racilyClean == IsRacilyClean(Taken(before, taken).stat, timestamp)
  {
    NormalizedMode(before.value.mode, before.value.mode);
  }

  /** For a missing file, the flag only says on which side of the start of time the clock is. */
  lemma {:induction false} RetakenMissingIsCopy(taken: int, timestamp: int)
    ensures Taken(None, taken).racilyClean == IsRacilyClean(Taken(None, taken).stat, timestamp) <==>
      (taken <= 0 <==> timestamp <= 0)
  {
  }

  /** With a clock that was set back, an unchanged fingerprint is not copied. */
  method RetakeWithClockSetBack() returns (previous: Fingerprint, fingerprint: Fingerprint)
    ensures previous == Taken(Some(File(1, 1, REGULAR, 1, [1], 7)), 8)
    ensures Unchanged(previous, Some(File(1, 1, REGULAR, 1, [1], 7)))
    ensures fingerprint == previous.(racilyClean := true) != previous
  {
    var file := Some(File(1, 1, REGULAR, 1, [1], 7));
    var fileId;
    previous, fileId := TakeFingerprint(file, 8);
    fingerprint, fileId := RetakeFingerprint(file, 7, previous);
    assert NotDeceptive(file, 8, file);
    assert Honest(previous, file);
  }

  /** Without deception, a fingerprint matches exactly the files that look like the one it was taken of. */
  lemma {:induction false} CleanMeansSame(before: Option<File>, timestamp: int, now: Option<File>)
    requires NotDeceptive(before, timestamp, now)
    ensures Clean(Taken(before, timestamp), now) <==> LooksSame(before, now)
  {
    if before.Some? {
      NormalizedMode(before.value.mode, if now.Some? then now.value.mode else 0);
      HashedTypes(before.value.mode);
    }
    if now.Some? {
      NormalizedMode(now.value.mode, 0);
      HashedTypes(now.value.mode);
    }
  }

  // File systems. Files are inodes of some device, which can have any number of paths. The clock counts seconds.

  type Path = string

  datatype Inode = Inode(mode: Mode, size: nat, content: Content, mtime: int)

  datatype World = World(inodes: map<FileId, Inode>, paths: map<Path, FileId>, clock: int)

  ghost function Examine(w: World, path: Path): Option<File> {
    if path in w.paths && w.paths[path] in w.inodes then
      var id := w.paths[path];
      var inode := w.inodes[id];
      Some(File(id.ino, id.dev, inode.mode, inode.size, inode.content, inode.mtime))
    else
      None
  }

  /** Where a path leads to is told by its file id, and paths with the same id lead to the same inode. */
  lemma {:induction false} ExaminedId(w: World, path: Path, other: Path)
    requires NO_FILE !in w.inodes
    ensures Examine(w, path).Some? ==> FileIdOf(Examine(w, path)) == w.paths[path]
    ensures FileIdOf(Examine(w, path)).Missing() <==> !(path in w.paths && w.paths[path] in w.inodes)
    ensures Examine(w, path).Some? && Examine(w, other).Some? ==>
      (FileIdOf(Examine(w, path)) == FileIdOf(Examine(w, other)) <==> w.paths[path] == w.paths[other])
  {
    assert forall id: FileId :: id.Missing() <==> id == NO_FILE;
  }

  /** What can happen to files. Only changes to the content of a file are stamped with the time. */
  datatype Action =
    | Wait(seconds: nat)
    | Create(id: FileId, mode: Mode, size: nat, content: Content)
    | Write(id: FileId, size: nat, content: Content)
    | ChangeMode(id: FileId, mode: Mode)
    | Link(path: Path, id: FileId)
    | Unlink(path: Path)
    | Free(id: FileId)

  ghost predicate Possible(w: World, a: Action) {
    match a
    case Create(id, _, _, _) => id !in w.inodes
    case Write(id, _, _) => id in w.inodes
    case ChangeMode(id, mode) => id in w.inodes && mode & FILE_TYPE == w.inodes[id].mode & FILE_TYPE
    case Link(_, id) => id in w.inodes
    case Free(id) => id in w.inodes && forall path :: path in w.paths ==> w.paths[path] != id
    case _ => true
  }

  ghost function Do(w: World, a: Action): World
    requires Possible(w, a)
  {
    match a
    case Wait(seconds) => w.(clock := w.clock + seconds)
    case Create(id, mode, size, content) => w.(inodes := w.inodes[id := Inode(mode, size, content, w.clock)])
    case Write(id, size, content) =>
      w.(inodes := w.inodes[id := Inode(w.inodes[id].mode, size, content, w.clock)])
    case ChangeMode(id, mode) => w.(inodes := w.inodes[id := w.inodes[id].(mode := mode)])
    case Link(path, id) => w.(paths := w.paths[path := id])
    case Unlink(path) => w.(paths := w.paths - {path})
    case Free(id) => w.(inodes := w.inodes - {id})
  }

  ghost predicate AllPossible(w: World, actions: seq<Action>)
    decreases |actions|
  {
    actions == [] || (Possible(w, actions[0]) && AllPossible(Do(w, actions[0]), actions[1..]))
  }

  ghost function DoAll(w: World, actions: seq<Action>): World
    requires AllPossible(w, actions)
    decreases |actions|
  {
    if actions == [] then w else DoAll(Do(w, actions[0]), actions[1..])
  }

  /** An inode is as it was, apart from its permissions, or has been stamped since. */
  ghost predicate UntouchedOrStamped(before: World, inode: Inode, id: FileId) {
    inode.mtime >= before.clock ||
    (&& id in before.inodes && inode.content == before.inodes[id].content && inode.size == before.inodes[id].size)
  }

  ghost predicate Later(before: World, now: World) {
    && before.clock <= now.clock
    && forall id :: id in now.inodes ==> UntouchedOrStamped(before, now.inodes[id], id)
  }

  lemma {:induction false} AllLater(start: World, w: World, actions: seq<Action>)
    requires Later(start, w) && AllPossible(w, actions)
    ensures Later(start, DoAll(w, actions))
    decreases |actions|
  {
    if actions != [] {
      AllLater(start, Do(w, actions[0]), actions[1..]);
    }
  }

  /** Fingerprints leave out the device, so that they can only tell files of one device apart. */
  ghost predicate SameDevice(before: Option<File>, now: Option<File>) {
    before.Some? && now.Some? ==> before.value.dev == now.value.dev
  }

  lemma {:induction false} HistoriesAreNotDeceptive(w: World, actions: seq<Action>, from: Path, path: Path,
                                                    timestamp: int)
    requires AllPossible(w, actions) && timestamp <= w.clock
    requires SameDevice(Examine(w, from), Examine(DoAll(w, actions), path))
    ensures NotDeceptive(Examine(w, from), timestamp, Examine(DoAll(w, actions), path))
  {
    AllLater(w, w, actions);
  }

  /**
   * After any history that leaves a path on its device, a fingerprint matches exactly if the file looks like it did
   * when the fingerprint was taken.
   */
  lemma {:induction false} MatchesAfterAnyHistory(w: World, actions: seq<Action>, path: Path, timestamp: int)
    requires AllPossible(w, actions) && timestamp <= w.clock
    requires SameDevice(Examine(w, path), Examine(DoAll(w, actions), path))
    ensures
      Clean(Taken(Examine(w, path), timestamp), Examine(DoAll(w, actions), path)) <==>
      LooksSame(Examine(w, path), Examine(DoAll(w, actions), path))
    ensures Honest(Taken(Examine(w, path), timestamp), Examine(DoAll(w, actions), path))
  {
    HistoriesAreNotDeceptive(w, actions, path, path, timestamp);
    CleanMeansSame(Examine(w, path), timestamp, Examine(DoAll(w, actions), path));
  }

  /** The flag is needed: a file that is written twice in a second can have the same metadata both times. */
  lemma {:induction false} WithoutFlag(path: Path)
    returns (w: World, actions: seq<Action>)
    ensures AllPossible(w, actions)
    ensures
      var fingerprint := Taken(Examine(w, path), w.clock).(racilyClean := false);
      var after := Examine(DoAll(w, actions), path);
      Clean(fingerprint, after) && !LooksSame(Examine(w, path), after)
  {
    var id := FileId(1, 1);
    w := World(map[id := Inode(REGULAR, 1, [1], 7)], map[path := id], 7);
    actions := [Write(id, 1, [2])];
    var after := Do(w, actions[0]);
    assert actions[1..] == [] && DoAll(w, actions) == after;
    assert Examine(after, path) == Some(File(1, 1, REGULAR, 1, [2], 7));
    assert REGULAR & FILE_TYPE == REGULAR;
    assert [1][0] != [2][0];
  }

  /** The device matters: a path that is moved to another one can lead to a file with the same metadata. */
  lemma {:induction false} OtherDevice(path: Path)
    returns (w: World, actions: seq<Action>)
    ensures AllPossible(w, actions)
    ensures
      var after := Examine(DoAll(w, actions), path);
      && !SameDevice(Examine(w, path), after)
      && Clean(Taken(Examine(w, path), w.clock), after) && !LooksSame(Examine(w, path), after)
  {
    var here, there := FileId(1, 1), FileId(1, 2);
    w := World(map[here := Inode(REGULAR, 1, [1], 7), there := Inode(REGULAR, 1, [2], 7)], map[path := here], 8);
    actions := [Link(path, there)];
    var after := Do(w, actions[0]);
    assert actions[1..] == [] && DoAll(w, actions) == after;
    assert Examine(after, path) == Some(File(1, 2, REGULAR, 1, [2], 7));
    assert REGULAR & FILE_TYPE == REGULAR;
    assert [1][0] != [2][0];
  }
}
