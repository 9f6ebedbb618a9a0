/** The client transport (client/transport.go): a table from tags to response channels.  Every
    method runs under queueLock, so each is one atomic step.  The abstract table is a value; the
    class below refines it. */
module ClientTransport {
  import opened Qp
  import opened ServerTags

  // What arrives on a response channel: a response, or the nil that killChannel sends.
  datatype Delivery = Answered(m: Reply) | Ditched

  // A channel's tag, everything ever sent on it, and whether it has been closed.
  datatype Chan = Chan(tag: Tag, got: seq<Delivery>, closed: bool)

  datatype Client = Client(queue: map<Tag, nat>, chans: seq<Chan>)

  function Allocated(c: Client, t: Tag): Client {
    Client(c.queue[t := |c.chans|], c.chans + [Chan(t, [], false)])
  }

  // The common end of received and killChannel: send on the channel, close it, forget the tag.
  function Finished(c: Client, t: Tag, d: Delivery): Client
    requires t in c.queue && c.queue[t] < |c.chans|
  {
    var ch := c.chans[c.queue[t]];
    Client(c.queue - {t}, c.chans[c.queue[t] := Chan(ch.tag, ch.got + [d], true)])
  }

  // ---- Channel discipline ------------------------------------------------------------------

  // A queued channel belongs to its tag, is open and has carried nothing; any other channel was
  // sent exactly one message and is closed.  Channels under different tags are different, since
  // each knows its own tag.
  predicate EntryDisciplined(c: Client, t: Tag) {
    t in c.queue ==> c.queue[t] < |c.chans| && c.chans[c.queue[t]] == Chan(t, [], false)
  }

  predicate Queued(c: Client, k: nat)
    requires k < |c.chans|
  {
    c.chans[k].tag in c.queue && c.queue[c.chans[k].tag] == k
  }

  predicate ChanDisciplined(c: Client, k: nat) {
    k < |c.chans| ==> Queued(c, k) || (c.chans[k].closed && |c.chans[k].got| == 1)
  }

  ghost predicate Disciplined(c: Client) {
    (forall t :: EntryDisciplined(c, t)) && (forall k :: ChanDisciplined(c, k))
  }

  lemma AllocatedDisciplined(c: Client, t: Tag)
    requires Disciplined(c) && t !in c.queue
    ensures Disciplined(Allocated(c, t))
  {
    var c' := Allocated(c, t);
    forall u ensures EntryDisciplined(c', u) { assert EntryDisciplined(c, u); }
    forall k ensures ChanDisciplined(c', k) { assert ChanDisciplined(c, k); }
  }

  lemma FinishedDisciplined(c: Client, t: Tag, d: Delivery)
    requires Disciplined(c) && t in c.queue
    ensures EntryDisciplined(c, t) && c.queue[t] < |c.chans| && Disciplined(Finished(c, t, d))
  {
    assert EntryDisciplined(c, t);
    var c' := Finished(c, t, d);
    forall u ensures EntryDisciplined(c', u) { assert EntryDisciplined(c, u); }
    forall k ensures ChanDisciplined(c', k) { assert ChanDisciplined(c, k); }
  }

  lemma DistinctTagsDistinctChannels(c: Client, t: Tag, u: Tag)
    requires Disciplined(c) && t in c.queue && u in c.queue && c.queue[t] == c.queue[u]
    ensures t == u
  {
    assert EntryDisciplined(c, t) && EntryDisciplined(c, u);
  }

  // ---- Counting tags -----------------------------------------------------------------------

  lemma {:induction false} TagsBelow(n: nat) returns (s: set<Tag>)
    requires n <= 0x1_0000
    ensures |s| == n && forall t: Tag :: t in s <==> t < n
  {
    s := {};
    if n > 0 {
      s := TagsBelow(n - 1);
      s := s + {n - 1};
    }
  }

  lemma SubsetCard(a: set<Tag>, b: set<Tag>)
    requires a <= b
    ensures |a| <= |b|
    ensures |a| == |b| ==> a == b
  {
    assert b == a + (b - a);
  }

  // Pigeonhole: how many tags are in use decides whether an ordinary one is free.
  lemma FreeTagIff(used: set<Tag>)
    ensures (exists t: Tag :: t < NOTAG && t !in used)
       <==> |used| < 0xFFFF || (|used| == 0xFFFF && NOTAG in used)
  {
    var all := TagsBelow(0x1_0000);
    var ordinary := TagsBelow(NOTAG);
    SubsetCard(used, all);
    if ordinary <= used {
      SubsetCard(ordinary, used);
    } else {
      var t :| t in ordinary && t !in used;
      SubsetCard(used, all - {t});
      assert |all - {t}| == 0xFFFF;
      if NOTAG !in used {
        SubsetCard(used, ordinary - {t});
      }
    }
  }

  function Successor(t: Tag): Tag
    requires t < NOTAG
  {
    if t + 1 == NOTAG then 0 else t + 1
  }

  // How many tags a round that starts at `start` visits before it comes to t.
  function Turns(start: Tag, t: Tag): nat
    requires start < NOTAG
  {
    if start <= t then t - start else t + NOTAG - start
  }

  // So the round visits the tags one after the other, and none twice.
  lemma TurnsCount(start: Tag, t: Tag)
    requires start < NOTAG && t < NOTAG
    ensures Turns(start, start) == 0 && Turns(start, t) < NOTAG
    ensures Successor(t) != start ==> Turns(start, Successor(t)) == Turns(start, t) + 1
  {
  }

  // Every tag that comes before t in the round is in use.
  predicate FirstFree(used: set<Tag>, start: Tag, t: Tag)
    requires start < NOTAG
  {
    forall u: Tag :: u < NOTAG && Turns(start, u) < Turns(start, t) ==> u in used
  }

  // ---- The transport itself ----------------------------------------------------------------

  // What a receive from a channel yields; with nothing in an open channel it waits.
  datatype Awaited = Waits | Closed | Delivered(d: Delivery)

  // A Go channel with capacity one.  Sending on a full channel would block while queueLock is
  // held, and sending on a closed one would panic; Send requires neither to be the case.  `got` is
  // everything that was ever sent on it, and `taken` what was received from it.
  class Channel {
    var buf: seq<Delivery>
    var closed: bool
    ghost var got: seq<Delivery>
    ghost var taken: seq<Delivery>
    ghost const tag: Tag
    ghost const id: nat

    constructor (ghost tag: Tag, ghost id: nat)
      ensures this.tag == tag && this.id == id && buf == [] && got == [] && taken == [] && !closed
    {
      this.tag, this.id := tag, id;
      buf, got, taken, closed := [], [], [], false;
    }

    method Send(d: Delivery)
      requires !closed && |buf| < 1
      modifies this
      ensures buf == old(buf) + [d] && got == old(got) + [d] && taken == old(taken) && closed == old(closed)
    {
      buf, got := buf + [d], got + [d];
    }

    method Close()
      requires !closed
      modifies this
      ensures closed && buf == old(buf) && got == old(got) && taken == old(taken)
    {
      closed := true;
    }

    method Receive() returns (r: Awaited)
      modifies this`buf, this`taken
      ensures old(buf) != [] ==>
        r == Delivered(old(buf)[0]) && buf == old(buf)[1..] && taken == old(taken) + [old(buf)[0]]
      ensures old(buf) == [] ==> r == (if closed then Closed else Waits) && buf == [] && taken == old(taken)
    {
      if |buf| == 0 { return if closed then Closed else Waits; }
      r := Delivered(buf[0]);
      buf, taken := buf[1..], taken + [buf[0]];
    }
  }

  datatype TagError = TagPoolDepleted | UnexpectedTagPoolDepleted
  datatype TagResult = Ok(tag: Tag) | Err(error: TagError)

  class Transport {
    var queue: map<Tag, Channel>
    var nextTag: Tag
    ghost var made: seq<Channel>

    ghost predicate Valid()
      reads this, made
    {
      nextTag < NOTAG && Linked() && Disciplined(Table())
    }

    // Every queued channel is one that this transport made.
    ghost predicate Linked()
      reads this`queue, this`made, made
    {
      && (forall k :: 0 <= k < |made| ==> made[k].id == k && made[k].taken + made[k].buf == made[k].got)
      && (forall t :: t in queue ==> queue[t].id < |made| && made[queue[t].id] == queue[t])
    }

    ghost function Table(): Client
      reads this`queue, this`made, made
    {
      Client(map t | t in queue :: queue[t].id, Chans(made))
    }

    static ghost function Chans(made: seq<Channel>): seq<Chan>
      reads made
    {
      seq(|made|, k requires 0 <= k < |made| reads made => Chan(made[k].tag, made[k].got, made[k].closed))
    }

    constructor ()
      ensures Valid() && Table() == Client(map[], [])
    {
      queue, nextTag, made := map[], 0, [];
    }

    method Tag() returns (r: TagResult)
      requires Valid()
      modifies this
      ensures Valid()
      ensures r.Ok? <==> exists t: Tag :: t < NOTAG && t !in old(queue)
      ensures r.Ok? ==> r.tag != NOTAG && r.tag !in old(queue) && Table() == Allocated(old(Table()), r.tag)
      ensures r.Ok? ==> nextTag == Successor(r.tag) && FirstFree(old(queue).Keys, old(nextTag), r.tag)
      ensures r.Err? ==> r.error == TagPoolDepleted && Table() == old(Table()) && nextTag == old(nextTag)
    {
      FreeTagIff(queue.Keys);
      if |queue| > 0xFFFF {
        return Err(TagPoolDepleted);
      } else if |queue| == 0xFFFF {
        if NOTAG !in queue {
          return Err(TagPoolDepleted);
        }
      }
      var t := Scan();
      if t.None? { return Err(UnexpectedTagPoolDepleted); }
      Allocate(t.value);
      r := Ok(t.value);
    }

    // The search loop of Tag: one round over the ordinary tags, starting where the last one ended.
    method Scan() returns (r: Option<Tag>)
      requires nextTag < NOTAG
      modifies this`nextTag
      ensures nextTag < NOTAG
      ensures r.Some? <==> exists t: Tag :: t < NOTAG && t !in queue
      ensures r.Some? ==> r.value < NOTAG && r.value !in queue
      ensures r.Some? ==> nextTag == Successor(r.value) && FirstFree(queue.Keys, old(nextTag), r.value)
    {
      ghost var start := nextTag;
      var i := 0;
      while i < 0xFFFF
        invariant 0 <= i <= 0xFFFF && nextTag < NOTAG
        invariant nextTag == if start + i < NOTAG then start + i else start + i - NOTAG
        invariant forall t: Tag :: start <= t < start + i && t < NOTAG ==> t in queue
        invariant forall t: Tag :: t < start + i - NOTAG ==> t in queue
      {
        var t := nextTag;
        nextTag := Successor(nextTag);
        if t !in queue { return Some(t); }
        i := i + 1;
      }
      return None;
    }

    // A new channel is queued under t.
    method Allocate(t: Tag)
      requires Valid() && t !in queue
      modifies this`queue, this`made
      ensures Valid() && queue.Keys == old(queue.Keys) + {t}
      ensures Table() == Allocated(old(Table()), t)
    {
      ghost var before := Table();
      AllocatedDisciplined(before, t);
      var ch := new Channel(t, |made|);
      queue, made := queue[t := ch], made + [ch];
      ShowsTable(Allocated(before, t));
    }

    // The table is c once its entries and its channels agree with c's.
    lemma ShowsTable(c: Client)
      requires queue.Keys == c.queue.Keys && |made| == |c.chans|
      requires forall u :: u in queue ==> c.queue[u] == queue[u].id
      requires forall k :: 0 <= k < |made| ==> c.chans[k] == Chan(made[k].tag, made[k].got, made[k].closed)
      ensures Table() == c
    {
      assert Table().queue == c.queue;
      assert Table().chans == c.chans;
    }

    method TakeTag(t: Tag) returns (ok: bool)
      requires Valid()
      modifies this`queue, this`made
      ensures Valid() && ok == (t !in old(queue))
      ensures Table() == if ok then Allocated(old(Table()), t) else old(Table())
    {
      if t in queue { return false; }
      Allocate(t);
      return true;
    }

    // The lock-protected body shared by received and killChannel: never blocks, never panics.
    method Finish(t: Tag, d: Delivery) returns (ok: bool)
      requires Valid()
      modifies this`queue, made
      ensures Valid() && ok == (t in old(queue))
      ensures ok ==> old(Table()).queue[t] < |old(Table()).chans| && Table() == Finished(old(Table()), t, d)
      ensures ok ==> old(queue[t]).buf == [d] && old(queue[t]).closed && queue == old(queue) - {t}
      ensures !ok ==> Table() == old(Table()) && queue == old(queue)
    {
      if t !in queue { return false; }
      ghost var before := Table();
      var ch := queue[t];
      FinishedDisciplined(before, t, d);
      assert before.chans[ch.id] == Chan(t, [], false);
      ch.Send(d);
      ch.Close();
      queue := queue - {t};
      ShowsTable(Finished(before, t, d));
      return true;
    }

    method Received(m: Reply) returns (ok: bool)
      requires Valid()
      modifies this`queue, made
      ensures Valid() && ok == (m.tag in old(queue))
      ensures ok ==>
        old(Table()).queue[m.tag] < |old(Table()).chans| && Table() == Finished(old(Table()), m.tag, Answered(m))
      ensures ok ==> old(queue[m.tag]).buf == [Answered(m)] && old(queue[m.tag]).closed && queue == old(queue) - {m.tag}
      ensures !ok ==> Table() == old(Table()) && queue == old(queue)
    {
      ok := Finish(m.tag, Answered(m));
    }

    method Ditch(t: Tag) returns (ok: bool)
      requires Valid()
      modifies this`queue, made
      ensures Valid() && ok == (t in old(queue))
      ensures ok ==> old(Table()).queue[t] < |old(Table()).chans| && Table() == Finished(old(Table()), t, Ditched)
      ensures ok ==> old(queue[t]).buf == [Ditched] && old(queue[t]).closed && queue == old(queue) - {t}
      ensures !ok ==> Table() == old(Table()) && queue == old(queue)
    {
      ok := Finish(t, Ditched);
    }

    // The end of Send: the response is taken off the channel.
    method Await(ch: Channel) returns (r: Awaited)
      requires Valid() && ch in made
      modifies ch
      ensures Valid() && Table() == old(Table()) && queue == old(queue)
      ensures r == if old(ch.buf) != [] then Delivered(old(ch.buf)[0]) else if ch.closed then Closed else Waits
    {
      ghost var k :| 0 <= k < |made| && made[k] == ch;
      ghost var before := Table();
      r := ch.Receive();
      assert ch.taken + ch.buf == ch.got;
      ShowsTable(before);
    }
  }
}
