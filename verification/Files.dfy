/** Values that several modules share. */
module Options {
  datatype Option<+T> = None | Some(value: T)
}

/** How files are told apart, and what checking one against its fingerprint finds. */
module Files {
  /** Inode and device number; both are zero for a file that does not exist. */
  datatype FileId = FileId(ino: nat, dev: nat) {
    predicate Missing() {
      ino == 0 && dev == 0
    }
  }

  const NO_FILE := FileId(0, 0)

  datatype MatchesResult = MatchesResult(clean: bool, shouldUpdate: bool, fileId: FileId)
}
