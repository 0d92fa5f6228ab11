/** Values shared by the storage modules. */
module CasTypes {

  datatype Option<+T> = None | Some(value: T)

  newtype byte = b: int | 0 <= b < 256

  type Bytes32 = s: seq<byte> | |s| == 32 witness seq(32, _ => 0)

  /** A content hash; all zeros stands for "none". */
  datatype Hash = Hash(bytes: Bytes32)

  function ZeroBytes(): Bytes32 {
    seq(32, _ => 0)
  }

  const ZERO_HASH: Hash := Hash(ZeroBytes())

  datatype EntryKind = Blob | Tree | Symlink | Deleted

  /** One path of a working tree. */
  datatype Entry = Entry(kind: EntryKind, hash: Hash, mode: nat)

  /** One line of a serialized directory. */
  datatype TreeEntry = TreeEntry(name: string, mode: nat, kind: EntryKind, hash: Hash)

  /** The parts of a commit that the storage algorithms look at. */
  datatype CommitData = CommitData(tree: Hash, parents: seq<Hash>, commitLabel: string)
}
