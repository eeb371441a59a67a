/** The messages and tables of the metadata service (proto/pulpfs.proto, src/meta_state.h),
    with the widths and the wrap-around of the integers the program computes with. */
module Types {

  const TWO_64: int := 0x1_0000_0000_0000_0000

  type u64 = x: int | 0 <= x < 0x1_0000_0000_0000_0000
  type u32 = x: int | 0 <= x < 0x1_0000_0000
  type i64 = x: int | -0x8000_0000_0000_0000 <= x < 0x8000_0000_0000_0000
  type byte = x: int | 0 <= x < 256

  const MAX_64: u64 := 0xFFFF_FFFF_FFFF_FFFF

  /** Unsigned 64-bit addition. */
  function Add64(a: u64, b: u64): u64 {
    if a + b < TWO_64 then a + b else a + b - TWO_64
  }

  /** Unsigned 64-bit subtraction. */
  function Sub64(a: u64, b: u64): u64 {
    if b <= a then a - b else a - b + TWO_64
  }

  function Max64(a: u64, b: u64): u64 {
    if a < b then b else a
  }

  function Min64(a: u64, b: u64): u64 {
    if b < a then b else a
  }

  datatype Option<+T> = None | Some(value: T)

  /** What becomes of one remote call: never executed, executed with the answer lost, answered. */
  datatype Delivery = Dropped | AnswerLost | Answered

  datatype Result<+T> = Ok(value: T) | Err(error: Error)

  /** The kinds of error the modelled code returns; the message texts are not kept. */
  datatype Error =
    | InvalidArgument
    | NotFound(path: string)
    | AlreadyExists(path: string)
    | NotDirectory(path: string)
    | IsDirectory(path: string)
    | DirectoryNotEmpty(path: string)
    | Unavailable

  datatype InodeType = UnspecifiedType | File | Directory

  datatype InodeAttrs = InodeAttrs(
    inodeId: u64,
    kind: InodeType,
    mode: u32,
    uid: u32,
    gid: u32,
    size: u64,
    nlink: u64,
    version: u64,
    atimeNs: i64,
    mtimeNs: i64,
    ctimeNs: i64,
    chunkSize: u64)

  datatype FileExtent = FileExtent(
    offset: u64,
    length: u64,
    objectKey: string,
    etag: string,
    checksum: string,
    objectSize: u64,
    objectOffset: u64)

  datatype FileLayout = FileLayout(attrs: InodeAttrs, chunkSize: u64, extents: seq<FileExtent>)

  datatype DentryKey = DentryKey(parent: u64, name: string)

  type Dentries = map<DentryKey, u64>

  const ROOT: u64 := 1

  /** The fields of MetaState as one value. */
  datatype State = State(
    nextInodeId: u64,
    defaultChunkSize: u64,
    inodes: map<u64, InodeAttrs>,
    dentries: Dentries,
    layouts: map<u64, FileLayout>)

  /** What a command leaves behind and what it answers. */
  datatype Outcome<+T> = Outcome(state: State, result: Result<T>)

  datatype AppendResult = AppendResult(attrs: InodeAttrs, appendStart: u64, committed: seq<FileExtent>)

  /** The clock readings of one command: a replacing rename reads the clock twice. */
  datatype Times = Times(removal: i64, final: i64)

  datatype SetAttrArgs = SetAttrArgs(
    mode: Option<u32>, uid: Option<u32>, gid: Option<u32>, atimeNs: Option<i64>, mtimeNs: Option<i64>)

  datatype Command =
    | MkdirCommand(parent: u64, name: string, mode: u32, uid: u32, gid: u32)
    | CreateFileCommand(parent: u64, name: string, mode: u32, uid: u32, gid: u32)
    | SetAttrCommand(inodeId: u64, args: SetAttrArgs)
    | CommitWriteCommand(inodeId: u64, baseVersion: u64, extents: seq<FileExtent>)
    | AppendWriteCommand(inodeId: u64, baseVersion: u64, extents: seq<FileExtent>)
    | TruncateCommand(inodeId: u64, size: u64)
    | UnlinkCommand(parent: u64, name: string)
    | RmdirCommand(parent: u64, name: string)
    | RenameCommand(parent: u64, name: string, newParent: u64, newName: string)
    | CommandNotSet

  datatype Response =
    | AttrsReply(attrs: InodeAttrs)
    | AppendReply(append: AppendResult)
    | ErrorReply(error: Error)
}
