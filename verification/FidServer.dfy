/** The fid table in its own imperative form: fidState and handle objects that requests mutate,
    one request at a time.  Each method is proved to take the abstract table of module FidTable
    where the corresponding request takes it. */
module FidServer {
  import opened Qp
  import opened Permissions
  import FidTable

  class Handle {
    var closes: nat
    ghost const id: nat

    constructor (ghost id: nat)
      ensures this.id == id && closes == 0
    {
      this.id, closes := id, 0;
    }

    method Close()
      modifies this
      ensures closes == old(closes) + 1
    {
      closes := closes + 1;
    }
  }

  class FidState {
    var location: seq<nat>
    var handle: Handle?
    ghost const home: Fid
    ghost const id: nat

    constructor (ghost home: Fid, ghost id: nat, location: seq<nat>)
      ensures this.home == home && this.id == id && this.location == location && handle == null
    {
      this.home, this.id, this.location, handle := home, id, location, null;
    }
  }

  // What the handle of an afid says: it may not be an Authenticator, or fail to tell.
  datatype Auth = NoAuthenticator | Failed | Says(authed: bool)

  datatype AttachReply =
    | Attached | InvalidFid | FidInUse | AuthRequired | UnknownFid | FidNotOpen | AfidNotAuthFile | AuthFailed
    | PermissionDenied | AuthNotSupported | NoSuchService | QidFailed

  class FileServer {
    var fids: map<Fid, FidState>
    ghost var states: seq<FidState>
    ghost var handles: seq<Handle>
    ghost var owner: seq<nat>

    ghost predicate Valid()
      reads this, states, handles
    {
      && |owner| == |handles|
      && (forall i :: 0 <= i < |states| ==> states[i].id == i && HandleKnown(states[i]))
      && (forall h :: 0 <= h < |handles| ==> handles[h].id == h)
      && (forall f :: f in fids ==> Known(fids[f]))
    }

    ghost predicate Known(st: FidState)
      reads this
    {
      st.id < |states| && states[st.id] == st
    }

    ghost predicate HandleKnown(st: FidState)
      reads this, st
    {
      st.handle != null ==> st.handle.id < |handles| && handles[st.handle.id] == st.handle
    }

    ghost function Table(): FidTable.Table
      reads this, states, handles
      requires Valid()
      ensures FidTable.WellFormed(Table())
    {
      FidTable.Table(
        seq(|states|, i requires 0 <= i < |states| reads this, states => ViewOf(states[i])),
        map f | f in fids :: fids[f].id,
        owner,
        seq(|handles|, h requires 0 <= h < |handles| reads this, handles => handles[h].closes))
    }

    static ghost function ViewOf(st: FidState): FidTable.FidState
      reads st
    {
      FidTable.FidState(st.home, st.location, if st.handle == null then None else Some(st.handle.id))
    }

    // The table is tb once its four parts agree with tb's.
    lemma ShowsTable(tb: FidTable.Table)
      requires Valid() && |states| == |tb.states| && fids.Keys == tb.fids.Keys && owner == tb.owner
          && |handles| == |tb.closes|
      requires forall i :: 0 <= i < |states| ==> tb.states[i] == ViewOf(states[i])
      requires forall f :: f in fids ==> tb.fids[f] == fids[f].id
      requires forall h :: 0 <= h < |handles| ==> tb.closes[h] == handles[h].closes
      ensures Table() == tb
    {
      assert Table().states == tb.states;
      assert Table().fids == tb.fids;
      assert Table().closes == tb.closes;
    }

    constructor ()
      ensures Valid() && Table() == FidTable.Table([], map[], [], [])
    {
      fids, states, handles, owner := map[], [], [], [];
    }

    // The fidState holds a handle that was not there before, and is not closed.
    twostate predicate Opened(new st: FidState)
      reads st, st.handle
    {
      st.handle != null && fresh(st.handle) && st.handle.closes == 0
    }

    // A new fidState goes into the table under f.
    method Install(f: Fid, location: seq<nat>) returns (st: FidState)
      requires Valid()
      modifies this
      ensures Valid() && fresh(st) && Known(st) && st.id == old(|states|) && st.handle == null
          && handles == old(handles)
      ensures states == old(states) + [st] && fids == old(fids)[f := st] && st.location == location
      ensures Table() == FidTable.Installed(old(Table()), f, location)
    {
      ghost var before := Table();
      st := new FidState(f, |states|, location);
      fids, states := fids[f := st], states + [st];
      ShowsTable(FidTable.Installed(before, f, location));
    }

    // The handle that a successful Open returns is stored in the fidState.
    method StoreHandle(st: FidState, location: seq<nat>)
      requires Valid() && Known(st)
      modifies this, st
      ensures Valid() && states == old(states) && fids == old(fids)
      ensures st.location == location && st.handle != null && fresh(st.handle) && st.handle.closes == 0
      ensures Table() == FidTable.Opened(old(Table()), st.id, location)
    {
      ghost var before := Table();
      var h := new Handle(|handles|);
      handles, owner := handles + [h], owner + [st.id];
      st.location, st.handle := location, h;
      ShowsTable(FidTable.Opened(before, st.id, location));
    }

    method CloseState(st: FidState)
      requires Valid() && Known(st)
      modifies st, handles
      ensures Valid() && st.handle == null && st.location == old(st.location)
      ensures old(st.handle) != null ==> old(st.handle).closes == old(st.handle.closes) + 1
      ensures Table() == FidTable.Closed(old(Table()), st.id)
    {
      ghost var before := Table();
      if st.handle != null {
        st.handle.Close();
        st.handle := null;
      }
      ShowsTable(FidTable.Closed(before, st.id));
    }

    method Forget(gone: set<Fid>)
      requires Valid()
      modifies this`fids
      ensures Valid() && fids == old(fids) - gone && Table() == old(Table()).(fids := old(Table()).fids - gone)
    {
      ghost var before := Table();
      fids := fids - gone;
      ShowsTable(before.(fids := before.fids - gone));
    }

    method Auth(f: Fid, opens: bool)
      requires Valid()
      modifies this
      ensures Valid() && Table() == FidTable.Authed(old(Table()), f, opens)
      ensures if f != NOFID && f !in old(fids) && opens
              then f in fids && fids == old(fids)[f := fids[f]] && fids[f].location == [] && Opened(fids[f])
              else fids == old(fids)
    {
      if f == NOFID || f in fids || !opens { return; }
      var st := Install(f, []);
      StoreHandle(st, []);
    }

    // attach, given whether there is an AuthFile, what the afid's handle says of the user, and the root
    // of the service.  The fid is installed before the root's Qid is asked for.
    method Attach(f: Fid, afid: Fid, authFile: bool, auth: Auth, root: Option<nat>, qidOk: bool)
      returns (r: AttachReply)
      requires Valid()
      modifies this
      ensures Valid()
      ensures r.Attached? || r.QidFailed? <==>
        && f != NOFID && f !in old(fids) && root.Some?
        && if authFile then afid != NOFID && afid in old(fids) && old(fids[afid].handle) != null && auth == Says(true)
           else afid == NOFID
      ensures r.Attached? ==> qidOk
      ensures r.QidFailed? ==> !qidOk
      ensures if r.Attached? || r.QidFailed? then
                && f in fids && fids == old(fids)[f := fids[f]]
                && fids[f].location == [root.value] && fids[f].handle == null
              else fids == old(fids)
      ensures var installed := r.Attached? || r.QidFailed?;
        Table() == FidTable.Attached(old(Table()), f, installed, if root.Some? then root.value else 0)
    {
      if f == NOFID { return InvalidFid; }
      if f in fids { return FidInUse; }
      if authFile {
        if afid == NOFID { return AuthRequired; }
        if afid !in fids { return UnknownFid; }
        if fids[afid].handle == null { return FidNotOpen; }
        match auth {
          case NoAuthenticator => return AfidNotAuthFile;
          case Failed => return AuthFailed;
          case Says(authed) => if !authed { return PermissionDenied; }
        }
      } else if afid != NOFID {
        return AuthNotSupported;
      }
      if root == None { return NoSuchService; }
      var st := Install(f, [root.value]);
      return if qidOk then Attached else QidFailed;
    }

    // open, given what the file answers: whether it is a directory, if it can tell; whether its Qid can
    // be had; and whether its Open succeeds.
    method Open(f: Fid, mode: OpenMode, isDir: Option<bool>, qidOk: bool, openOk: bool) returns (ok: bool)
      requires Valid()
      modifies this, states
      ensures Valid()
      ensures ok <==>
        && f in old(fids) && old(fids[f].handle) == null && old(fids[f].location) != []
        && isDir.Some? && (isDir.value ==> mode % 4 == OREAD || mode % 4 == OEXEC) && qidOk && openOk
      ensures fids == old(fids) && (f in fids ==> fids[f].location == old(fids[f].location))
      ensures ok ==> Opened(fids[f])
      ensures Table() ==
        if f in old(fids) then FidTable.OpenedAt(old(Table()), old(Table()).fids[f], ok) else old(Table())
    {
      if f !in fids { return false; }
      var st := fids[f];
      if st.handle != null || st.location == [] || isDir == None { return false; }
      if isDir.value && (mode % 4 == OWRITE || mode % 4 == ORDWR) { return false; }
      if !qidOk || !openOk { return false; }
      StoreHandle(st, st.location);
      return true;
    }

    // create, given whether the fid's file is a directory, what its Create makes, and whether the new
    // file's Qid can be had and its Open succeeds.
    method Create(f: Fid, name: string, isDir: Option<bool>, made: Option<nat>, qidOk: bool, openOk: bool)
      returns (created: bool)
      requires Valid()
      modifies this, states
      ensures Valid()
      ensures created <==>
        && f in old(fids) && old(fids[f].handle) == null && old(fids[f].location) != []
        && name != "." && name != ".." && isDir == Some(true) && made.Some? && qidOk && openOk
      ensures fids == old(fids)
      ensures created ==> fids[f].location == old(fids[f].location) + [made.value] && Opened(fids[f])
      ensures !created && f in fids ==>
        fids[f].location == old(fids[f].location) && fids[f].handle == old(fids[f].handle)
      ensures Table() ==
        if f in old(fids) then FidTable.CreatedAt(old(Table()), old(Table()).fids[f], if created then made else None)
        else old(Table())
    {
      if f !in fids { return false; }
      var st := fids[f];
      if st.handle != null { return false; }
      if name == "." || name == ".." { return false; }
      if st.location == [] || isDir != Some(true) { return false; }
      if made.None? || !qidOk || !openOk { return false; }
      StoreHandle(st, st.location + [made.value]);
      return true;
    }

    // walk, given what walkTo makes of the old location.
    method Walk(f: Fid, g: Fid, result: Option<seq<nat>>)
      requires Valid()
      modifies this
      ensures Valid()
      ensures
        if && g != NOFID && f in old(fids) && (g !in old(fids) || f == g)
           && old(fids[f].location) != [] && old(fids[f].handle) == null && result.Some?
        then g in fids && fids == old(fids)[g := fids[g]] && fids[g].location == result.value && fids[g].handle == null
        else fids == old(fids)
      ensures Table() ==
        if g == NOFID || f !in old(fids) || (g in old(fids) && f != g) then old(Table())
        else var st := old(Table()).states[old(Table()).fids[f]];
          if st.location == [] || st.handle.Some? || result.None? then old(Table())
          else FidTable.Walked(old(Table()), f, g, result.value)
    {
      if g == NOFID || f !in fids || (g in fids && f != g) { return; }
      var st := fids[f];
      if st.location == [] || st.handle != null || result.None? { return; }
      if f == g {
        if fids[g].handle != null { return; }
      } else if g in fids { return; }
      var st' := Install(g, result.value);
    }

    method Clunk(f: Fid)
      requires Valid()
      modifies this, states, handles
      ensures Valid() && Table() == FidTable.Clunked(old(Table()), f)
      ensures fids == old(fids) - {f}
      ensures f in old(fids) ==> old(fids[f]).handle == null
      ensures f in old(fids) && old(fids[f].handle) != null ==>
        old(fids[f].handle).closes == old(fids[f].handle.closes) + 1
    {
      if f !in fids { return; }
      var st := fids[f];
      CloseState(st);
      Forget({f});
    }

    method CloseFid(f: Fid, ghost before: FidTable.Table, ghost rest: set<Fid>)
      requires Valid() && f in fids && f in rest && FidTable.Owned(before)
      requires Table() == FidTable.CleanedExcept(before, rest)
      modifies states, handles
      ensures Valid() && Table() == FidTable.CleanedExcept(before, rest - {f})
    {
      assert before.fids[f] == fids[f].id by { assert Table().fids[f] == fids[f].id; }
      FidTable.CleanedOneMore(before, rest, f);
      CloseState(fids[f]);
    }

    // The loop of cleanup.
    method CloseAll()
      requires Valid() && FidTable.Owned(Table())
      modifies states, handles
      ensures Valid() && Table() == FidTable.CleanedExcept(old(Table()), {})
    {
      ghost var before := Table();
      FidTable.CleanedNothing(before);
      var rest := fids.Keys;
      while rest != {}
        invariant Valid() && rest <= fids.Keys
        invariant Table() == FidTable.CleanedExcept(before, rest)
        decreases |rest|
      {
        var f :| f in rest;
        CloseFid(f, before, rest);
        rest := rest - {f};
      }
    }

    method Cleanup()
      requires Valid() && FidTable.Owned(Table())
      modifies this, states, handles
      ensures Valid() && fids == map[] && Table() == FidTable.Cleaned(old(Table()))
    {
      CloseAll();
      Forget(fids.Keys);
    }
  }
}
