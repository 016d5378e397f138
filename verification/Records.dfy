/** The value types every layer shares: where a file lies, how a part is sealed, what a
    commit footer says about an archive, and what the catalog keeps about one placed copy. */
module Records {
  datatype Option<+T> = None | Some(value: T)

  type Bytes = seq<bv8>

  /** The location of one file: the volume's label ("" on address-identified media), the
      epoch the label carried, and the position on that volume. */
  datatype FilePos = FilePos(volume: string, epoch: int, pos: int)

  /** The zero location, which stands for "no file" where an index is optional. */
  const NO_FILE := FilePos("", 0, 0)

  /** The seal of one part file. An empty hash means the part is unsealed. */
  datatype PartSeal = PartSeal(size: int, sha: string, rawSize: int)

  const NO_SEAL := PartSeal(0, "", 0)

  datatype Shape = Stream | Framed | Atomic

  /** An archive is named by its run, its DLE and its level. */
  datatype ArchiveKey = ArchiveKey(run: string, dle: string, level: int)

  /** The commit footer, and the same record as the catalog caches it. `info` stands for the
      descriptive fields (host, path, schemes, counts, dates) that are only ever carried along. */
  datatype Archive = Archive(
    run: string, dle: string, level: int,
    info: string, shape: Shape, sha: string,
    compressed: int, parts: int, partSeals: seq<PartSeal>,
    members: seq<string>, frames: seq<int>, units: seq<string>,
    indexSize: int, partMap: seq<FilePos>, indexPos: FilePos)
  {
    function Key(): ArchiveKey { ArchiveKey(run, dle, level) }
  }

  /** The record Go's zero value stands for when a lookup misses. */
  const NO_ARCHIVE := Archive("", "", 0, "", Stream, "", 0, 0, [], [], [], [], 0, [], NO_FILE)

  /** Where one archive landed: its ordered parts, its commit footer, its member index. */
  datatype ArchivePos = ArchivePos(parts: seq<FilePos>, commit: FilePos, index: FilePos)

  /** The catalog's record of one archive on one medium. */
  datatype PlacedArchive = PlacedArchive(
    dle: string, level: int, parts: seq<FilePos>, seals: seq<PartSeal>,
    commit: FilePos, index: FilePos)
  {
    function Pos(): ArchivePos { ArchivePos(parts, commit, index) }
  }

  /** A volume's label record: its name, the pool (medium) that owns it, its epoch. */
  datatype Label = Label(name: string, pool: string, epoch: int)
}
