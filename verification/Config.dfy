/** Constants and small types shared by both versions of TecnicoFS. */
module Config {
  const ROOT_DIR_INUM := 0
  const BLOCK_SIZE := 1024
  const DATA_BLOCKS := 1024
  const INODE_TABLE_SIZE := 50
  const MAX_OPEN_FILES := 20
  const MAX_FILE_NAME := 40
  const BUFFER_SIZE := 128

  // sizeof(dir_entry_t) is 40 + 4 bytes, so a block holds 1024 / 44 entries.
  const MAX_DIR_ENTRIES := 23

  // size_t arithmetic is modulo 2^64.
  const SIZE_T_MOD := 0x1_0000_0000_0000_0000

  type byte = x: int | 0 <= x < 256

  datatype Alloc = FREE | TAKEN

  datatype InodeType = T_FILE | T_DIRECTORY

  datatype Flags = Flags(creat: bool, trunc: bool, append: bool)

  datatype Option<T> = None | Some(value: T)

  datatype OpenFile = OpenFile(inum: int, offset: nat)

  // What a call hands back: a number, -1, or nothing defined (the C code goes through a null
  // pointer, leaves the memory of the file system or the end of a path, or takes what it reads
  // behind a block for a block number).
  datatype Result = Ret(n: nat) | Fail | Undefined

  predicate ValidInumber(i: int) { 0 <= i < INODE_TABLE_SIZE }

  predicate ValidBlock(b: int) { 0 <= b < DATA_BLOCKS }

  predicate ValidHandle(h: int) { 0 <= h < MAX_OPEN_FILES }

  // The unsigned subtraction a - b.
  function SizeSub(a: nat, b: nat): (r: nat)
    ensures b <= a ==> r == a - b
    ensures b > a ==> (r + b - a) % SIZE_T_MOD == 0
  {
    if b <= a then a - b else (a - b) % SIZE_T_MOD
  }

  function Min(a: nat, b: nat): nat { if a <= b then a else b }

  function Max(a: nat, b: nat): nat { if a >= b then a else b }

  function Splice(c: seq<byte>, o: nat, buf: seq<byte>): (r: seq<byte>)
    requires o <= |c|
    ensures |r| == Max(|c|, o + |buf|)
    ensures forall p :: 0 <= p < |r| ==> r[p] == if o <= p < o + |buf| then buf[p - o] else c[p]
  {
    c[..o] + buf + (if o + |buf| <= |c| then c[o + |buf|..] else [])
  }

  // Two adjacent pieces make one.
  lemma SpliceSplice(c: seq<byte>, o: nat, a: seq<byte>, b: seq<byte>)
    requires o <= |c|
    ensures o + |a| <= |Splice(c, o, a)| && Splice(Splice(c, o, a), o + |a|, b) == Splice(c, o, a + b)
  {}

  predicate ValidPathname(name: string) { |name| > 1 && name[0] == '/' }
}
