/** The client's fid pool against the server's fid table (client.go: getFid, rmFid and the calls
    that use them).  Calls of any number of goroutines overlap, and a caller may go on using a fid
    that it, or another caller, has already clunked. */
module FidAgreement {
  import opened Qp
  import FidTable

  // ---- The pool ----------------------------------------------------------------------------

  datatype FidError = NoSuchFid

  class ClientFid {
    const fid: Fid
    constructor (fid: Fid)
      ensures this.fid == fid
    {
      this.fid := fid;
    }
  }

  class Client {
    var fids: map<Fid, ClientFid>

    // getFid: try every fid in turn, searching the map's keys each time.
    method GetFid() returns (r: Option<ClientFid>)
      modifies this
      ensures r.Some? <==> exists f: Fid :: f != NOFID && f !in old(fids)
      ensures r.Some? ==> fresh(r.value) && r.value.fid != NOFID && r.value.fid !in old(fids)
      ensures r.Some? ==> forall g: Fid :: g < r.value.fid ==> g in old(fids)
      ensures r.Some? ==> fids == old(fids)[r.value.fid := r.value]
      ensures r.None? ==> fids == old(fids)
    {
      var i: Fid := 0;
      while i < NOFID
        invariant fids == old(fids)
        invariant forall g: Fid :: g < i ==> g in fids
        decreases NOFID - i
      {
        var taken := false;
        var keys := fids.Keys;
        while keys != {} && !taken
          invariant keys <= fids.Keys
          invariant taken ==> i in fids
          invariant !taken ==> (i in fids ==> i in keys)
          decreases |keys|, !taken
        {
          var key :| key in keys;
          if key == i {
            taken := true;
          } else {
            keys := keys - {key};
          }
        }
        if !taken {
          var f := new ClientFid(i);
          fids := fids[i := f];
          return Some(f);
        }
        i := i + 1;
      }
      return None;
    }

    // rmFid answers ErrNoSuchFid, whether the fid was there or not.
    method RmFid(f: ClientFid) returns (err: Option<FidError>)
      modifies this
      ensures fids == old(fids) - {f.fid} && err == Some(NoSuchFid)
    {
      if f.fid in fids {
        fids := fids - {f.fid};
      }
      return Some(NoSuchFid);
    }
  }

  // ---- The calls ---------------------------------------------------------------------------

  // Auth, Attach and Walk take a new fid; Clunk and Remove give one back.
  datatype Kind = Add | Drop

  // An orphan's caller is gone, but the server has yet to decide: a Tflush suppresses the response of
  // a request, not the handler.
  datatype Phase = Sent | Replied(ok: bool) | Orphan

  datatype Call = Call(kind: Kind, fid: Fid, phase: Phase)

  // `refused` records that the server ever answered FidInUse.
  datatype State = State(client: set<Fid>, server: set<Fid>, calls: map<nat, Call>, refused: bool)

  datatype Action =
    | Take(id: nat, f: Fid)            // getFid, then the request is sent
    | Give(id: nat, f: Fid)            // Clunk or Remove is sent
    | ServeAdd(id: nat, ok: bool)      // the server decides about the new fid
    | ServeAttachNoQid(id: nat)        // attach installs the fid, then finds that Qid fails
    | ServeDrop(id: nat, ok: bool)     // the server deletes the fid, then answers
    | Finish(id: nat)                 // the caller reads the response
    | Abandon(id: nat)                // the call is flushed and ditched, and its caller gets no response

  predicate Enabled(s: State, a: Action) {
    match a
    case Take(id, f) => id !in s.calls && f != NOFID && f !in s.client && forall g: Fid | 0 <= g < f :: g in s.client
    case Give(id, f) => id !in s.calls
    case ServeAdd(id, _) => Undecided(s, id) && s.calls[id].kind.Add?
    case ServeAttachNoQid(id) => Undecided(s, id) && s.calls[id].kind.Add?
    case ServeDrop(id, _) => Undecided(s, id) && s.calls[id].kind.Drop?
    case Finish(id) => id in s.calls && s.calls[id].phase.Replied?
    case Abandon(id) => id in s.calls && !s.calls[id].phase.Orphan?
  }

  predicate Undecided(s: State, id: nat) {
    id in s.calls && !s.calls[id].phase.Replied?
  }

  // The server's fids after it has dealt with a new one, or with one to drop.
  function Added(server: set<Fid>, f: Fid, ok: bool): set<Fid> {
    if f in server || !ok then server else server + {f}
  }

  // They are the fids of the server's table: auth and attach, the second critical section of
  // walk, and clunk and remove do just this to them.  For attach `ok` is that the checks before
  // Qid succeed.
  lemma ServerSteps(tb: FidTable.Table, f: Fid, g: Fid, ok: bool, root: nat, location: seq<nat>)
    requires FidTable.WellFormed(tb) && g != NOFID
    ensures FidTable.Authed(tb, g, ok).fids.Keys == Added(tb.fids.Keys, g, ok)
    ensures FidTable.Attached(tb, g, ok, root).fids.Keys == Added(tb.fids.Keys, g, ok)
    ensures FidTable.Walked(tb, f, g, location).fids.Keys == Added(tb.fids.Keys, g, f != g)
    ensures FidTable.Clunked(tb, f).fids.Keys == tb.fids.Keys - {f}
  {
  }

  // The call after the server's decision; an orphan is done with.
  function Decided(s: State, id: nat, ok: bool): map<nat, Call>
    requires id in s.calls
  {
    if s.calls[id].phase.Orphan? then s.calls - {id} else s.calls[id := s.calls[id].(phase := Replied(ok))]
  }

  // The pool after a caller learns that its call succeeded, or failed: an Add that fails gives its
  // fid back, and so does a Drop that succeeds.
  function Returned(s: State, id: nat, ok: bool): set<Fid>
    requires id in s.calls
  {
    if s.calls[id].kind.Add? != ok then s.client - {s.calls[id].fid} else s.client
  }

  function Apply(s: State, a: Action): State
    requires Enabled(s, a)
  {
    match a
    case Take(id, f) => s.(client := s.client + {f}, calls := s.calls[id := Call(Add, f, Sent)])
    case Give(id, f) => s.(calls := s.calls[id := Call(Drop, f, Sent)])
    case ServeAdd(id, ok) =>
      var f := s.calls[id].fid;
      State(s.client, Added(s.server, f, ok), Decided(s, id, ok && f !in s.server), s.refused || f in s.server)
    case ServeAttachNoQid(id) =>
      var f := s.calls[id].fid;
      State(s.client, Added(s.server, f, true), Decided(s, id, false), s.refused || f in s.server)
    case ServeDrop(id, ok) =>
      var f := s.calls[id].fid;
      s.(server := s.server - {f}, calls := Decided(s, id, ok && f in s.server))
    case Finish(id) => s.(client := Returned(s, id, s.calls[id].phase.ok), calls := s.calls - {id})
    // The caller takes the missing response for a failure.
    case Abandon(id) =>
      s.(client := Returned(s, id, false),
         calls := if s.calls[id].phase.Sent? then s.calls[id := s.calls[id].(phase := Orphan)] else s.calls - {id})
  }

  predicate Init(s: State) {
    s == State({}, {}, map[], false)
  }

  // The server has no fid that the client thinks is free, and has never refused one from getFid.
  predicate Agree(s: State) {
    s.server <= s.client && !s.refused
  }

  // A call that stands between its fid and the pool: an add that has not succeeded, or a drop
  // that has.  A fid is held by the server's table or by one such call, never by two of them,
  // and what is held is not free.
  predicate Holds(c: Call) {
    match c.kind
    case Add => c.phase != Replied(true)
    case Drop => c.phase == Replied(true)
  }

  predicate Rivals(s: State, id: nat, id': nat) {
    && id in s.calls && id' in s.calls
    && Holds(s.calls[id]) && Holds(s.calls[id'])
    && s.calls[id].fid == s.calls[id'].fid
  }

  ghost predicate Inv(s: State) {
    && Agree(s)
    && (forall id :: id in s.calls && Holds(s.calls[id]) ==>
        s.calls[id].fid in s.client && s.calls[id].fid !in s.server)
    && (forall id, id' :: Rivals(s, id, id') ==> id == id')
    && (forall id :: id in s.calls && s.calls[id].kind.Add? ==> s.calls[id].fid != NOFID && !s.calls[id].phase.Orphan?)
  }

  // The steps that do harm, at once or later: an attach that fails on its Qid, and giving up on a call
  // for a new fid that the server may still install, or has installed, or that another call holds.
  ghost predicate Harmful(s: State, a: Action)
    requires Enabled(s, a)
  {
    match a
    case ServeAttachNoQid(_) => true
    case Abandon(id) =>
      var c := s.calls[id];
      c.kind.Add? && (c.phase.Sent? || (c.phase.ok && (c.fid in s.server || exists id' :: HeldToo(s, c.fid, id'))))
    case _ => false
  }

  predicate HeldToo(s: State, f: Fid, id: nat) {
    id in s.calls && s.calls[id].fid == f && Holds(s.calls[id])
  }

  lemma StepKeeps(s: State, a: Action)
    requires Inv(s) && Enabled(s, a) && !Harmful(s, a)
    ensures Inv(Apply(s, a))
  {
    var s' := Apply(s, a);
    forall id | id in s'.calls && Holds(s'.calls[id])
      ensures s'.calls[id].fid in s'.client && s'.calls[id].fid !in s'.server
    {
      assert Rivals(s, id, a.id) ==> id == a.id;
      assert a.Abandon? ==> !HeldToo(s, s.calls[a.id].fid, id) || s'.client == s.client;
    }
    forall id, id' | Rivals(s', id, id')
      ensures id == id'
    {
      assert Rivals(s, id, id') ==> id == id';
    }
  }

  ghost predicate Reaches(s: State, acts: seq<Action>, s': State)
    decreases |acts|
  {
    if acts == [] then s == s' else Enabled(s, acts[0]) && Reaches(Apply(s, acts[0]), acts[1..], s')
  }

  ghost predicate NoHarm(s: State, acts: seq<Action>)
    decreases |acts|
  {
    acts == [] || (Enabled(s, acts[0]) && !Harmful(s, acts[0]) && NoHarm(Apply(s, acts[0]), acts[1..]))
  }

  lemma {:induction false} RunKeeps(s: State, acts: seq<Action>, s': State)
    requires Inv(s) && Reaches(s, acts, s') && NoHarm(s, acts)
    ensures Inv(s')
    decreases |acts|
  {
    if acts != [] {
      StepKeeps(s, acts[0]);
      RunKeeps(Apply(s, acts[0]), acts[1..], s');
    }
  }

  // As long as no attach fails on its Qid and no call for a new fid is given up: the server never has
  // a fid that the client thinks is free, and from getFid to the server's decision the server does
  // not have the new fid, so whenever the server looks it does not refuse it as in use.
  lemma FidsAgree(s0: State, acts: seq<Action>, s: State)
    requires Init(s0) && Reaches(s0, acts, s) && NoHarm(s0, acts)
    ensures s.server <= s.client && !s.refused
    ensures forall id :: id in s.calls && s.calls[id].kind.Add? && s.calls[id].phase.Sent? ==>
        s.calls[id].fid !in s.server
  {
    RunKeeps(s0, acts, s);
  }

  // ---- Which steps do harm -----------------------------------------------------------------

  // Some run from here, harmless from now on, ends in disagreement.
  ghost predicate Diverges(s: State) {
    exists acts, s' :: Reaches(s, acts, s') && NoHarm(s, acts) && !Agree(s')
  }

  lemma DivergesNow(s: State)
    requires !Agree(s)
    ensures Diverges(s)
  {
    assert Reaches(s, [], s) && NoHarm(s, []);
  }

  lemma DivergesBy(s: State, a: Action)
    requires Enabled(s, a) && !Harmful(s, a) && Diverges(Apply(s, a))
    ensures Diverges(s)
  {
    var acts, s' :| Reaches(Apply(s, a), acts, s') && NoHarm(Apply(s, a), acts) && !Agree(s');
    assert ([a] + acts)[1..] == acts;
    assert Reaches(s, [a] + acts, s') && NoHarm(s, [a] + acts);
  }

  // In a state in which all is well, a step lets client and server disagree, at once or in some
  // harmless continuation, if and only if it is one of the harmful ones.
  lemma DivergesIff(s: State, a: Action)
    requires Inv(s) && Enabled(s, a)
    ensures Diverges(Apply(s, a)) <==> Harmful(s, a)
  {
    var s1 := Apply(s, a);
    if !Harmful(s, a) {
      StepKeeps(s, a);
      forall acts, s' | Reaches(s1, acts, s') && NoHarm(s1, acts) ensures Agree(s') { RunKeeps(s1, acts, s'); }
    } else if a.ServeAttachNoQid? {
      QidFailure(s, a.id);
    } else {
      GivenUp(s, a.id);
    }
  }

  // An attach that fails on its Qid leaves the fid behind: once the caller has read the error, the
  // server has a fid that the client thinks is free.
  lemma QidFailure(s: State, id: nat)
    requires Inv(s) && Enabled(s, ServeAttachNoQid(id))
    ensures Diverges(Apply(s, ServeAttachNoQid(id)))
    ensures Enabled(Apply(s, ServeAttachNoQid(id)), Finish(id))
    ensures var s2 := Apply(Apply(s, ServeAttachNoQid(id)), Finish(id));
      s.calls[id].fid in s2.server && s.calls[id].fid !in s2.client
  {
    var s1 := Apply(s, ServeAttachNoQid(id));
    DivergesNow(Apply(s1, Finish(id)));
    DivergesBy(s1, Finish(id));
  }

  // The next call that takes the fid is then refused.
  lemma RefusedNext(s: State, n: nat, f: Fid, ok: bool)
    requires f in s.server && f !in s.client && Enabled(s, Take(n, f))
    ensures Enabled(Apply(s, Take(n, f)), ServeAdd(n, ok)) && Apply(Apply(s, Take(n, f)), ServeAdd(n, ok)).refused
  {
  }

  // Giving up on a call for a new fid frees the fid while the server has it, or is yet to install it,
  // or while another call holds it, and will install it or free it once more.
  lemma GivenUp(s: State, id: nat)
    requires Inv(s) && Enabled(s, Abandon(id)) && Harmful(s, Abandon(id))
    ensures Diverges(Apply(s, Abandon(id)))
  {
    var c := s.calls[id];
    var s1 := Apply(s, Abandon(id));
    if c.phase.Sent? {
      DivergesNow(Apply(s1, ServeAdd(id, true)));
      DivergesBy(s1, ServeAdd(id, true));
    } else if c.fid in s.server {
      DivergesNow(s1);
    } else {
      var id' :| HeldToo(s, c.fid, id');
      if s.calls[id'].phase.Sent? {
        DivergesNow(Apply(s1, ServeAdd(id', true)));
        DivergesBy(s1, ServeAdd(id', true));
      } else {
        TakenBetween(s1, c.fid, 0, id');
      }
    }
  }

  // The fid is taken again before the other call frees it, and is free once more when the server
  // installs it.  To get to it, getFid first hands out the free fids below.
  lemma {:induction false} TakenBetween(s: State, f: Fid, g: Fid, id: nat)
    requires f != NOFID && f !in s.client && f !in s.server
    requires HeldToo(s, f, id) && s.calls[id].phase.Replied?
    requires g <= f && forall h: Fid :: h < g ==> h in s.client
    ensures Diverges(s)
    decreases f - g
  {
    if g in s.client {
      TakenBetween(s, f, g + 1, id);
    } else {
      var n := Above(s.calls.Keys);
      assert n !in s.calls;
      var s1 := Apply(s, Take(n, g));
      if g < f {
        TakenBetween(s1, f, g + 1, id);
      } else {
        var s2 := Apply(s1, Finish(id));
        DivergesNow(Apply(s2, ServeAdd(n, true)));
        DivergesBy(s2, ServeAdd(n, true));
        DivergesBy(s1, Finish(id));
      }
      DivergesBy(s, Take(n, g));
    }
  }

  lemma {:induction false} Above(ids: set<nat>) returns (n: nat)
    ensures forall id :: id in ids ==> id < n
    decreases |ids|
  {
    n := 0;
    if ids != {} {
      var id :| id in ids;
      n := Above(ids - {id});
      assert forall i :: i in ids ==> i == id || i in ids - {id};
      if n <= id { n := id + 1; }
    }
  }

  // For one: a Twalk is flushed and ditched before the server gets to it.
  lemma FlushedWalkDisagrees(s0: State) returns (s: State)
    requires Init(s0)
    ensures Reaches(s0, [Take(0, 0), Abandon(0), ServeAdd(0, true)], s) && s.server == {0} && s.client == {}
  {
    var s1 := Apply(s0, Take(0, 0));
    var s2 := Apply(s1, Abandon(0));
    s := Apply(s2, ServeAdd(0, true));
    var rest := [Abandon(0), ServeAdd(0, true)];
    assert [Take(0, 0), Abandon(0), ServeAdd(0, true)][1..] == rest && rest[1..] == [ServeAdd(0, true)];
    assert [ServeAdd(0, true)][1..] == [];
    assert Reaches(s, [], s);
    assert Reaches(s2, [ServeAdd(0, true)], s);
    assert Reaches(s1, rest, s);
  }
}
