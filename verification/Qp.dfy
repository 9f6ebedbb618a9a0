/** The 9P2000 vocabulary shared by the client and the server: tags, fids, and the sizes
    that qp and the file server fix. */
module Qp {

  // Tags are 16 bits wide; the all-ones tag is reserved for Tversion.
  type Tag = t: nat | t < 0x1_0000
  const NOTAG: Tag := 0xFFFF

  // Fids are 32 bits wide; the all-ones fid means "no fid".
  type Fid = f: nat | f < 0x1_0000_0000
  const NOFID: Fid := 0xFFFF_FFFF

  // MinSize is the smallest message size that the server accepts.
  const MIN_SIZE := 256

  datatype Option<+T> = None | Some(value: T)

  type byte = b: nat | b < 256

  // The header of an Rread, read(5): size[4] Rread tag[2] count[4].
  const READ_OVERHEAD := 11
}
