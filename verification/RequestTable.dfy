/** The file server's tag table in its own imperative form: requestState objects with a mutable
    `cancelled` flag and the fs.tags map.  Each method is one critical section and is proved to
    take the abstract table of module ServerTags exactly one step further. */
module RequestTable {
  import opened Qp
  import ServerTags

  class RequestState {
    const tag: Tag
    var cancelled: bool
    ghost const id: nat

    constructor (tag: Tag, ghost id: nat)
      ensures this.tag == tag && this.id == id && !cancelled
    {
      this.tag, this.id, cancelled := tag, id, false;
    }
  }

  // A message on the connection: its tag and its length.
  datatype Written = Written(tag: Tag, size: nat)

  // The fields of FileServer that tagLock and configLock protect.  The connection is modelled
  // by what was written to it; `out` says in addition which request each message answers.
  class FileServer {
    var tags: map<Tag, RequestState>
    var msgSize: nat
    ghost var issued: seq<RequestState>
    ghost var replies: seq<Option<nat>>
    var conn: seq<Written>
    ghost var out: seq<ServerTags.Reply>

    ghost predicate Valid()
      reads this, issued
    {
      && |replies| == |issued| && |conn| == |out|
      && (forall i :: 0 <= i < |conn| ==> conn[i] == Written(out[i].tag, out[i].size))
      && (forall i :: 0 <= i < |issued| ==> issued[i].id == i)
      && (forall t :: t in tags ==> Issued(tags[t]))
    }

    ghost predicate Issued(rs: RequestState)
      reads this
    {
      rs.id < |issued| && issued[rs.id] == rs
    }

    ghost function Table(): ServerTags.Table
      reads this, issued
      requires Valid()
      ensures ServerTags.WellFormed(Table())
    {
      ServerTags.Table(
        seq(|issued|, i requires 0 <= i < |issued| && |replies| == |issued| reads this, issued =>
                        ServerTags.Request(issued[i].tag, issued[i].cancelled, replies[i])),
        map t | t in tags :: tags[t].id,
        out)
    }

    constructor (msgSize: nat)
      ensures Valid() && Table() == ServerTags.Table([], map[], []) && this.msgSize == msgSize
    {
      tags, conn, issued, replies, out := map[], [], [], [], [];
      this.msgSize := msgSize;
    }

    method Begin(tag: Tag) returns (rs: RequestState)
      requires Valid()
      modifies this
      ensures Valid() && fresh(rs) && Issued(rs) && rs.tag == tag && rs.id == old(|issued|)
      ensures Table() == ServerTags.Begun(old(Table()), tag) && msgSize == old(msgSize)
    {
      rs := new RequestState(tag, |issued|);
      issued, replies := issued + [rs], replies + [None];
    }

    method Register(rs: RequestState, cancelAndOverwrite: bool) returns (inUse: bool)
      requires Valid() && Issued(rs)
      modifies this, issued
      ensures Valid() && issued == old(issued) && msgSize == old(msgSize)
      ensures inUse == ServerTags.InUse(old(Table()), rs.tag)
      ensures Table() == ServerTags.Registered(old(Table()), rs.id, cancelAndOverwrite)
    {
      if rs.tag == NOTAG { return false; }
      if rs.tag in tags {
        if cancelAndOverwrite {
          var oldRS := tags[rs.tag];
          oldRS.cancelled := true;
          tags := tags[rs.tag := rs];
        }
        return true;
      }
      tags := tags[rs.tag := rs];
      return false;
    }

    method Flush(oldTag: Tag)
      requires Valid()
      modifies this, issued
      ensures Valid() && issued == old(issued) && msgSize == old(msgSize)
      ensures Table() == ServerTags.Flushed(old(Table()), oldTag)
    {
      if oldTag in tags {
        var oldRS := tags[oldTag];
        oldRS.cancelled := true;
        tags := tags - {oldTag};
      }
    }

    // respond for a message that encodes to `size` bytes.
    method Respond(rs: RequestState, size: nat) returns (written: bool)
      requires Valid() && Issued(rs)
      modifies this
      ensures Valid() && issued == old(issued) && msgSize == old(msgSize)
      ensures Table() == ServerTags.Responded(old(Table()), rs.id, size, msgSize)
      ensures written <==> size <= msgSize && !rs.cancelled
      ensures conn == if written then old(conn) + [Written(rs.tag, size)] else old(conn)
      ensures tags == if written then old(tags) - {rs.tag} else old(tags)
    {
      if size > msgSize { return false; }
      if rs.cancelled { return false; }
      conn := conn + [Written(rs.tag, size)];
      out, replies := out + [ServerTags.Reply(rs.tag, rs.id, size)], replies[rs.id := Some(|out|)];
      tags := tags - {rs.tag};
      return true;
    }

    // What version does to tags and message size; the fids it resets are those of module FidServer.
    method Version(rs: RequestState, asked: nat, suggested: nat) returns (r: VersionResult)
      requires Valid()
      modifies this
      ensures Valid() && issued == old(issued)
      ensures r.IncorrectTag? <==> rs.tag != NOTAG
      ensures r.SizeTooSmall? <==> rs.tag == NOTAG && ServerTags.Negotiated(asked, suggested).None?
      ensures r.Accepted? ==> tags == map[] && msgSize == if asked > suggested then suggested else asked
      ensures !r.Accepted? ==> Table() == old(Table()) && msgSize == old(msgSize)
      ensures r.Accepted? ==>
        Table() == old(Table()).(tags := map[]) && ServerTags.Negotiated(asked, suggested) == Some(msgSize)
            && r.msgSize == msgSize
    {
      if rs.tag != NOTAG { return IncorrectTag; }
      var msgsize := asked;
      if msgsize > suggested {
        msgsize := suggested;
      } else if msgsize < MIN_SIZE {
        return SizeTooSmall;
      }
      tags := map[];
      msgSize := msgsize;
      return Accepted(msgSize);
    }
  }

  // Rerror, or the Rversion with its size.
  datatype VersionResult = IncorrectTag | SizeTooSmall | Accepted(msgSize: nat)
}
