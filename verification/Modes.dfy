/** File modes: a kind and nine permission bits, and the Unix numbers that stand for them. */
module Modes {
  import opened Codec

  datatype FileKind = Directory | Symlink | Pipe | Socket | Regular

  type Perm = n: int | 0 <= n < 512

  datatype Mode = Mode(kind: FileKind, perm: Perm)

  function TypeBits(k: FileKind): u32 {
    match k
    case Directory => 0x4000
    case Symlink => 0xA000
    case Pipe => 0x1000
    case Socket => 0xC000
    case Regular => 0x8000
  }

  /** `unix_type_and_perm` */
  function UnixMode(m: Mode): (n: u32) {
    TypeBits(m.kind) + m.perm
  }

  /** The four bits of a Unix mode that give the kind. */
  function TypeNibble(bits: u32): nat {
    (bits / 0x1000) % 16
  }

  /** What the 9P client makes of a Unix mode. */
  function ModeFromUnix(bits: u32): Mode {
    Mode(match TypeNibble(bits)
         case 4 => Directory
         case 10 => Symlink
         case 1 => Pipe
         case 12 => Socket
         case _ => Regular, bits % 512)
  }

  lemma UnixRoundTrip(m: Mode)
    ensures ModeFromUnix(UnixMode(m)) == m
  {
    assert UnixMode(m) / 0x1000 == TypeBits(m.kind) / 0x1000;
  }

  /** The numbers that stand for the kinds, and the permissions below them. */
  lemma ModeNumbers(p: Perm)
    ensures UnixMode(Mode(Directory, p)) == 0x4000 + p && UnixMode(Mode(Regular, p)) == 0x8000 + p
    ensures UnixMode(Mode(Symlink, p)) == 0xA000 + p && UnixMode(Mode(Pipe, p)) == 0x1000 + p
    ensures UnixMode(Mode(Socket, p)) == 0xC000 + p
  {
  }

  /** A number of an unknown kind is taken for a regular file, and bits above the permissions are lost. */
  lemma OtherNumbers(bits: u32)
    ensures ModeFromUnix(bits).perm == bits % 512
    ensures bits / 0x1000 % 16 !in {1, 4, 10, 12} ==> ModeFromUnix(bits).kind == Regular
  {
  }
}
