/** File modes and the permission check (trees/utils.go: PermCheck).  A mode is the 32-bit word of
    stat(5), here taken apart; OfWord says how, and the lemmas after it that the operations on the
    parts are the program's operations on words. */
module Permissions {

  datatype Rights = Rights(r: bool, w: bool, x: bool)

  // `dir` is DMDIR, and `other` the bits that are neither DMDIR nor permissions, in their places.
  datatype FileMode = FileMode(dir: bool, owner: Rights, group: Rights, world: Rights, other: bv32)

  // All bits set: "leave the mode alone" in a Twstat.
  const NO_MODE := FileMode(true, Rights(true, true, true), Rights(true, true, true), Rights(true, true, true),
                            0x7FFF_FE00)

  type OpenMode = mode: nat | mode < 0x100

  const OREAD: OpenMode := 0
  const OWRITE: OpenMode := 1
  const ORDWR: OpenMode := 2
  const OEXEC: OpenMode := 3

  predicate PermCheck(owner: bool, group: bool, permissions: FileMode, mode: OpenMode) {
    var rights := if owner then permissions.owner else if group then permissions.group else permissions.world;
    match mode % 4
    case 0 => rights.r
    case 1 => rights.w
    case 2 => rights.r && rights.w
    case _ => rights.x
  }

  // DMAPPEND
  predicate AppendOnly(permissions: FileMode) {
    permissions.other & 0x4000_0000 != 0
  }

  // Whether a user may write a file owned by uid; there are no groups.
  predicate MayWrite(user: string, uid: string, permissions: FileMode) {
    if user == uid then permissions.owner.w else permissions.world.w
  }

  lemma MayWriteIsPermCheck(user: string, uid: string, permissions: FileMode)
    ensures MayWrite(user, uid, permissions) == PermCheck(user == uid, false, permissions, OWRITE)
  {
  }

  // What rights the holder of `have` can pass on; Create leaves the execute right of a file alone.
  function Both(want: Rights, have: Rights): Rights {
    Rights(want.r && have.r, want.w && have.w, want.x && have.x)
  }

  function BothReadWrite(want: Rights, have: Rights): Rights {
    Both(want, have).(x := want.x)
  }

  function Limited(want: FileMode, have: FileMode): FileMode {
    want.(owner := Both(want.owner, have.owner), group := Both(want.group, have.group),
          world := Both(want.world, have.world))
  }

  function LimitedReadWrite(want: FileMode, have: FileMode): FileMode {
    want.(owner := BothReadWrite(want.owner, have.owner), group := BothReadWrite(want.group, have.group),
          world := BothReadWrite(want.world, have.world))
  }

  // ---- Modes as words --------------------------------------------------------------------------

  const DMDIR: bv32 := 0x8000_0000

  function OfWord(w: bv32): FileMode {
    FileMode(w & DMDIR != 0,
             RightsOf(w, 0x100, 0x080, 0x040), RightsOf(w, 0x020, 0x010, 0x008), RightsOf(w, 0x004, 0x002, 0x001),
             w & 0x7FFF_FE00)
  }

  function RightsOf(word: bv32, r: bv32, w: bv32, x: bv32): Rights {
    Rights(word & r != 0, word & w != 0, word & x != 0)
  }

  // Nothing is lost.
  lemma OfWordInjective(a: bv32, b: bv32)
    requires OfWord(a) == OfWord(b)
    ensures a == b
  {
  }

  lemma NoModeOnWords()
    ensures NO_MODE == OfWord(!0)
  {
  }

  lemma AppendOnlyOnWords(w: bv32)
    ensures AppendOnly(OfWord(w)) <==> w & 0x4000_0000 != 0
  {
  }

  // PermCheck on words: the three bits of a class sit at an offset.
  predicate WordCheck(owner: bool, group: bool, w: bv32, mode: OpenMode) {
    var offset: bv4 := if owner then 6 else if group then 3 else 0;
    match mode % 4
    case 0 => w & (1 << (2 + offset)) != 0
    case 1 => w & (1 << (1 + offset)) != 0
    case 2 => w & (1 << (2 + offset)) != 0 && w & (1 << (1 + offset)) != 0
    case _ => w & (1 << offset) != 0
  }

  lemma PermCheckOnWords(owner: bool, group: bool, w: bv32, mode: OpenMode)
    ensures PermCheck(owner, group, OfWord(w), mode) == WordCheck(owner, group, w, mode)
  {
  }

  // The bit tests that Open makes on the byte of a Topen.
  lemma AccessOnBytes(b: bv8)
    ensures (b as nat) % 4 == (b & 3) as nat
  {
  }

  lemma OwriteOnBytes(b: bv8)
    ensures (b as nat) % 2 == 1 <==> b & 0x01 != 0
  {
  }

  lemma OtruncOnBytes(b: bv8)
    ensures (b as nat) / 16 % 2 == 1 <==> b & 0x10 != 0
  {
  }

  // Setting DMDIR, and taking DMDIR from one mode and the rest from another.
  lemma DirOnWords(a: bv32, b: bv32)
    ensures OfWord(a | DMDIR) == OfWord(a).(dir := true)
    ensures OfWord((a & DMDIR) | (b & !DMDIR)) == OfWord(b).(dir := OfWord(a).dir)
  {
  }

  // What Create limits new permissions to; the mask is 0777 or 0666.
  function Masked(perms: bv32, d: bv32, mask: bv32): bv32 {
    perms & (!mask | (d & mask))
  }

  lemma LimitedOnWords(perms: bv32, d: bv32)
    ensures OfWord(Masked(perms, d, 0x1FF)) == Limited(OfWord(perms), OfWord(d))
  {
  }

  lemma LimitedReadWriteOnWords(perms: bv32, d: bv32)
    ensures OfWord(Masked(perms, d, 0x1B6)) == LimitedReadWrite(OfWord(perms), OfWord(d))
  {
  }
}
