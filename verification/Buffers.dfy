/** File content (trees/syntheticfile.go: SyntheticHandle.ReadAt/WriteAt, SetLength, the truncating
    Open; trees/detachedhandle.go has the same ReadAt and WriteAt over its own slice), and reading
    a whole file through the server's capped read (fileserver.go: read; client/wrapper.go: ReadAll). */
module Buffers {
  import opened Qp
  import opened Permissions

  // ---- What a file's content is ------------------------------------------------------------

  // Where a write lands: never beyond the end, and at the end for an append-only handle.
  function WriteStart(s: seq<byte>, offset: nat, appendOnly: bool): nat
    ensures WriteStart(s, offset, appendOnly) <= |s|
  {
    if appendOnly || offset > |s| then |s| else offset
  }

  function Written(s: seq<byte>, offset: nat, appendOnly: bool, p: seq<byte>): seq<byte> {
    var o := WriteStart(s, offset, appendOnly);
    s[..o] + p + if o + |p| < |s| then s[o + |p|..] else []
  }

  function ReadOut(s: seq<byte>, offset: nat, count: nat): seq<byte> {
    if offset >= |s| then [] else if offset + count <= |s| then s[offset..offset + count] else s[offset..]
  }

  // A read yields what is there, as far as it reaches.
  lemma ReadsWhatIsThere(s: seq<byte>, offset: nat, count: nat)
    ensures offset >= |s| ==> ReadOut(s, offset, count) == []
    ensures offset < |s| ==> |ReadOut(s, offset, count)| == if count < |s| - offset then count else |s| - offset
    ensures offset <= |s| ==> ReadOut(s, offset, count) <= s[offset..]
  {
  }

  // A write that would leave a gap, or is append-only, goes to the end; any other stays where it is.
  lemma WritesWhereAsked(s: seq<byte>, offset: nat, appendOnly: bool, p: seq<byte>)
    ensures appendOnly || offset >= |s| ==> Written(s, offset, appendOnly, p) == s + p
    ensures !appendOnly && offset + |p| <= |s| ==>
      Written(s, offset, appendOnly, p) == s[..offset] + p + s[offset + |p|..]
    ensures !appendOnly && offset <= |s| < offset + |p| ==> Written(s, offset, appendOnly, p) == s[..offset] + p
  {
  }

  // A write replaces a range and nothing else: reading the range gives the data back, and any
  // other byte is the one that was there.
  lemma WriteThenRead(s: seq<byte>, offset: nat, appendOnly: bool, p: seq<byte>, i: nat)
    ensures var o := WriteStart(s, offset, appendOnly);
      var s' := Written(s, offset, appendOnly, p);
      && ReadOut(s', o, |p|) == p
      && |s'| == (if o + |p| > |s| then o + |p| else |s|)
      && (i < |s| && !(o <= i < o + |p|) ==> s'[i] == s[i])
  {
    var o := WriteStart(s, offset, appendOnly);
    var s' := Written(s, offset, appendOnly, p);
    if p != [] { assert s'[o..o + |p|] == p; }
  }

  // ---- The slice behind it -----------------------------------------------------------------

  // A []byte: `len` visible bytes at the front of an array whose length is the capacity.
  class Content {
    var buf: array<byte>
    var len: nat

    ghost predicate Valid()
      reads this
    {
      len <= buf.Length
    }

    ghost function View(): seq<byte>
      requires Valid()
      reads this, buf
    {
      buf[..len]
    }

    constructor (cnt: seq<byte>)
      ensures Valid() && View() == cnt && fresh(buf)
    {
      buf := new byte[|cnt|](i requires 0 <= i < |cnt| => cnt[i]);
      len := |cnt|;
    }

    // ReadAt fills the front of p and says how much it filled.
    method ReadAt(p: array<byte>, offset: nat) returns (n: nat)
      requires Valid() && p != buf
      modifies p
      ensures n == if offset >= len then 0 else if p.Length < len - offset then p.Length else len - offset
      ensures forall i :: 0 <= i < n ==> p[i] == View()[offset + i]
      ensures n <= p.Length && p[..n] == ReadOut(View(), offset, p.Length)
      ensures p[n..] == old(p[n..])
    {
      if offset > len { return 0; }
      var maxRead := p.Length;
      var remaining := len - offset;
      if maxRead > remaining {
        maxRead := remaining;
      }
      forall i | 0 <= i < maxRead { p[i] := buf[offset + i]; }
      return maxRead;
    }

    // WriteAt overwrites in place, grows into spare capacity, or moves to a bigger array.
    method WriteAt(p: seq<byte>, offset: nat, appendOnly: bool) returns (n: nat)
      requires Valid()
      modifies this, buf
      ensures Valid() && (buf == old(buf) || fresh(buf)) && n == |p|
      ensures View() == Written(old(View()), offset, appendOnly, p)
    {
      var o := offset;
      if appendOnly || o > len {
        o := len;
      }
      MakeRoom(o, |p| + o);
      CopyAt(buf, o, p);
      assert View() == buf[..][..len];
      return |p|;
    }

    // Make the slice reach to l at least, with the first o bytes as they are.
    method MakeRoom(o: nat, l: nat)
      requires Valid() && o <= len && o <= l
      modifies this
      ensures Valid() && (buf == old(buf) || fresh(buf)) && len == if l > old(len) then l else old(len)
      ensures View()[..o] == old(View())[..o] && (l <= old(len) ==> View() == old(View()))
    {
      if l > buf.Length {
        var c := l * 2;
        if l < 10240 {
          c := 10240;
        }
        var b := new byte[c](_ => 0);
        forall i | 0 <= i < o { b[i] := buf[i]; }
        buf, len := b, l;
      } else if l > len {
        len := l;
      }
    }

    // Copy p into b from o on.
    static method CopyAt(b: array<byte>, o: nat, p: seq<byte>)
      requires o + |p| <= b.Length
      modifies b
      ensures b[..] == old(b[..])[..o] + p + old(b[..])[o + |p|..]
    {
      forall i | 0 <= i < |p| { b[o + i] := p[i]; }
    }

    // SetLength cuts the slice and keeps its array; `mayWrite` and `fake` are the permission
    // check and FakeLength.
    method SetLength(length: nat, mayWrite: bool, fake: bool) returns (ok: bool)
      requires Valid()
      modifies this`len
      ensures Valid() && ok == (mayWrite && length <= old(len) && !fake)
      ensures View() == if ok then old(View())[..length] else old(View())
    {
      if !mayWrite { return false; }
      if length > len { return false; }
      if fake { return false; }
      len := length;
      return true;
    }

    // Open checks the permissions, may empty the content, and makes the handle.
    method Open(permissions: FileMode, owner: bool, mode: OpenMode) returns (r: Option<HandleFlags>)
      requires Valid()
      modifies this
      ensures Valid() && (buf == old(buf) || fresh(buf))
      ensures r.Some? <==> PermCheck(owner, false, permissions, mode)
      ensures View() == if r.Some? && Truncates(mode) then [] else old(View())
      ensures r.Some? && r.value.readable ==> mode % 4 == OEXEC || PermCheck(owner, false, permissions, OREAD)
      ensures r.Some? && r.value.writable ==> PermCheck(owner, false, permissions, OWRITE)
      ensures r.Some? ==> r.value.readable == ServesRead(mode) && r.value.writable == ServesWrite(mode)
      ensures r.Some? ==> r.value.appendOnly == AppendOnly(permissions)
    {
      if !PermCheck(owner, false, permissions, mode) { return None; }
      if mode / 16 % 2 == 1 && mode % 2 == 1 {
        buf, len := new byte[0], 0;
      }
      var how := mode % 4;
      var readable, writable := how == OREAD || how == OEXEC || how == ORDWR, how == OWRITE || how == ORDWR;
      return Some(HandleFlags(readable, writable, AppendOnly(permissions)));
    }
  }

  datatype HandleFlags = HandleFlags(readable: bool, writable: bool, appendOnly: bool)

  // The modes in which the server's read and write let a request through.  The handle itself does not
  // look at its flags.
  predicate ServesRead(mode: OpenMode) {
    mode % 4 == OREAD || mode % 4 == ORDWR || mode % 4 == OEXEC
  }

  predicate ServesWrite(mode: OpenMode) {
    mode % 4 == OWRITE || mode % 4 == ORDWR
  }

  // So nobody writes a file through the server without permission to write it, and whoever reads it may
  // read it, or has it open to execute it.
  lemma ServedRights(owner: bool, permissions: FileMode, mode: OpenMode)
    requires PermCheck(owner, false, permissions, mode)
    ensures (ServesRead(mode) <==> mode % 4 != OWRITE) && (ServesRead(mode) && ServesWrite(mode) <==> mode % 4 == ORDWR)
    ensures ServesWrite(mode) ==> PermCheck(owner, false, permissions, OWRITE)
    ensures ServesRead(mode) ==>
      PermCheck(owner, false, permissions, OREAD) || (mode % 4 == OEXEC && PermCheck(owner, false, permissions, OEXEC))
  {
  }

  // OTRUNC, and a mode with the bit of OWRITE: the test looks at one bit of the two that name the
  // mode, so truncation happens for OWRITE (1), but also for OEXEC (3), and not for ORDWR (2).
  predicate Truncates(mode: OpenMode) {
    mode / 16 % 2 == 1 && (mode % 4 == OWRITE || mode % 4 == OEXEC)
  }

  // On the byte of a Topen the test is for the bits of OTRUNC and OWRITE, and the mode is two bits.
  lemma TruncatesOnBytes(b: bv8)
    ensures Truncates(b as nat) <==> b & 0x10 != 0 && b & 0x01 != 0
    ensures (b as nat) % 4 == (b & 3) as nat
  {
    AccessOnBytes(b);
    OwriteOnBytes(b);
    OtruncOnBytes(b);
  }

  // open(5) wants write permission of whoever truncates a file.  Open sees to that for every mode but
  // OEXEC with OTRUNC, with which a user who may only execute the file empties it.
  lemma TruncationNeedsWriteIff(mode: OpenMode)
    ensures (forall owner, p :: PermCheck(owner, false, p, mode) && Truncates(mode) ==>
        PermCheck(owner, false, p, OWRITE))
       <==> !(mode % 4 == OEXEC && Truncates(mode))
  {
    var x := Rights(false, false, true);
    var p := FileMode(false, x, x, x, 0);
    assert PermCheck(true, false, p, OEXEC) && !PermCheck(true, false, p, OWRITE);
    if mode % 4 == OEXEC { assert PermCheck(true, false, p, mode); }
  }

  // ---- Any sequence of operations ------------------------------------------------------------

  datatype Op =
    | Write(p: seq<byte>, offset: nat, appendOnly: bool)
    | Cut(length: nat)
    | Reopen(permissions: FileMode, owner: bool, mode: OpenMode)

  function After(s: seq<byte>, ops: seq<Op>): seq<byte>
    decreases |ops|
  {
    if ops == [] then s
    else
      var s' := match ops[0]
        case Write(p, offset, appendOnly) => Written(s, offset, appendOnly, p)
        case Cut(length) => if length <= |s| then s[..length] else s
        case Reopen(permissions, owner, mode) =>
          if PermCheck(owner, false, permissions, mode) && Truncates(mode) then [] else s;
      After(s', ops[1..])
  }

  // Over any history the slice shows the abstract sequence: no stale byte of its spare capacity
  // ever comes into view.
  method Run(c: Content, ops: seq<Op>)
    requires c.Valid()
    modifies c, c.buf
    ensures c.Valid() && c.View() == After(old(c.View()), ops)
  {
    var i := 0;
    while i < |ops|
      invariant 0 <= i <= |ops|
      invariant c.Valid() && (c.buf == old(c.buf) || fresh(c.buf))
      invariant After(old(c.View()), ops) == After(c.View(), ops[i..])
    {
      assert ops[i..][1..] == ops[i + 1..];
      match ops[i] {
        case Write(p, offset, appendOnly) => var n := c.WriteAt(p, offset, appendOnly);
        case Cut(length) => var ok := c.SetLength(length, true, false);
        case Reopen(permissions, owner, mode) => var r := c.Open(permissions, owner, mode);
      }
      i := i + 1;
    }
  }

  // ---- Reading a whole file ------------------------------------------------------------------

  // The server's read: the count is capped so that the Rread fits the negotiated size.
  method Read(c: Content, offset: nat, count: nat, msgSize: nat) returns (data: seq<byte>)
    requires c.Valid() && msgSize >= READ_OVERHEAD
    ensures var cap := msgSize - READ_OVERHEAD;
      data == ReadOut(c.View(), offset, if cap > count then count else cap)
    ensures |data| + READ_OVERHEAD <= msgSize && |data| <= count
    ensures offset >= |c.View()| ==> data == []
    ensures offset < |c.View()| ==>
      && data <= c.View()[offset..]
      && (offset + |data| == |c.View()| || |data| == count || |data| + READ_OVERHEAD == msgSize)
  {
    var cap := msgSize - READ_OVERHEAD;
    if cap > count {
      cap := count;
    }
    var b := new byte[cap];
    var n := c.ReadAt(b, offset);
    data := b[..n];
  }

  // ReadAll asks for the client's message size until it gets nothing back, and then has the whole
  // content, provided that a read can carry at least one byte.
  method ReadAll(c: Content, clientSize: nat, msgSize: nat) returns (p: seq<byte>)
    requires c.Valid() && msgSize >= READ_OVERHEAD
    ensures p == if clientSize > 0 && msgSize > READ_OVERHEAD then c.View() else []
  {
    p := [];
    var o := 0;
    while true
      invariant o == |p| <= |c.View()| && p == c.View()[..o]
      invariant clientSize == 0 || msgSize == READ_OVERHEAD ==> p == []
      decreases |c.View()| - o
    {
      var b := Read(c, o, clientSize, msgSize);
      if |b| == 0 { break; }
      p := p + b;
      o := o + |b|;
    }
  }
}
