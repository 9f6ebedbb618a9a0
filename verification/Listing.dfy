/** Directory listings: the entries that ListHandle.ReadAt hands out (trees/listhandle.go), the
    loop that collects them (client/wrapper.go: ReadAll, Readdir) and the parser that takes them
    apart again (utils/utils.go: Readdir).  How an entry becomes bytes is a parameter; module
    StatCodec supplies it. */
module Listing {
  import opened Qp
  import StatCodec

  // Marshal and Unmarshal of a directory entry.
  datatype Codec<!T> = Codec(Marshal: T -> seq<byte>, Unmarshal: seq<byte> -> Option<T>)

  function Size(b: seq<byte>): nat
    requires |b| >= 2
  {
    StatCodec.GetInt(b[..2]) + 2
  }

  // The entry's bytes begin with their own length and can be read back.
  ghost predicate Printable<T>(c: Codec<T>, x: T) {
    var b := c.Marshal(x);
    |b| >= 2 && Size(b) == |b| && c.Unmarshal(b) == Some(x)
  }

  // ---- Printing and parsing a whole listing --------------------------------------------------

  function MarshalAll<T>(c: Codec<T>, list: seq<T>): seq<byte> {
    if list == [] then [] else c.Marshal(list[0]) + MarshalAll(c, list[1..])
  }

  // What was parsed so far comes back even when the rest cannot be parsed; a crash gives nothing back.
  datatype Parsed<T> = Ok(stats: seq<T>) | Err(stats: seq<T>) | Crash

  function Prefixed<T>(stats: seq<T>, p: Parsed<T>): Parsed<T> {
    match p
    case Ok(more) => Ok(stats + more)
    case Err(more) => Err(stats + more)
    case Crash => Crash
  }

  // The bytes are a slice with `spare` bytes of capacity behind it.  When a single byte is left, a size
  // is still read if there is any, and found too big; otherwise there is nothing to read it from.
  function Parse<T>(c: Codec<T>, b: seq<byte>, spare: nat): Parsed<T>
    decreases |b|
  {
    if b == [] then Ok([])
    else if |b| < 2 then if spare == 0 then Crash else Err([])
    else if Size(b) > |b| then Err([])
    else
      match c.Unmarshal(b[..Size(b)])
      case None => Err([])
      case Some(x) => Prefixed([x], Parse(c, b[Size(b)..], spare))
  }

  lemma {:induction false} ParsePrinted<T>(c: Codec<T>, list: seq<T>, spare: nat)
    requires forall i :: 0 <= i < |list| ==> Printable(c, list[i])
    ensures Parse(c, MarshalAll(c, list), spare) == Ok(list)
  {
    if list != [] {
      var m, rest := c.Marshal(list[0]), MarshalAll(c, list[1..]);
      var b := m + rest;
      assert b[..2] == m[..2];
      assert b[..|m|] == m && b[|m|..] == rest;
      ParsePrinted(c, list[1..], spare);
      assert [list[0]] + list[1..] == list;
    }
  }

  // Entries followed by something that is none: what was parsed before comes back with an error, or is
  // lost in a crash if a single byte is left at the end of the array.
  lemma {:induction false} ParseGarbled<T>(c: Codec<T>, list: seq<T>, tail: seq<byte>, spare: nat)
    requires forall i :: 0 <= i < |list| ==> Printable(c, list[i])
    requires tail != [] && (|tail| >= 2 ==> Size(tail) > |tail| || c.Unmarshal(tail[..Size(tail)]) == None)
    ensures Parse(c, MarshalAll(c, list) + tail, spare) == if |tail| == 1 && spare == 0 then Crash else Err(list)
  {
    if list == [] {
      assert MarshalAll(c, list) + tail == tail;
    } else {
      var m, rest := c.Marshal(list[0]), MarshalAll(c, list[1..]) + tail;
      var b := m + rest;
      assert MarshalAll(c, list) + tail == b;
      assert b[..2] == m[..2];
      assert b[..|m|] == m && b[|m|..] == rest;
      ParseGarbled(c, list[1..], tail, spare);
      assert [list[0]] + list[1..] == list;
    }
  }

  lemma PrefixedTwice<T>(a: seq<T>, b: seq<T>, p: Parsed<T>)
    ensures Prefixed(a, Prefixed(b, p)) == Prefixed(a + b, p)
  {
    if !p.Crash? { assert a + (b + p.stats) == a + b + p.stats; }
  }

  // utils.Readdir.  `beyond` is what lies in the slice's array behind its end.
  method Readdir<T>(c: Codec<T>, input: seq<byte>, beyond: seq<byte>) returns (r: Parsed<T>)
    ensures r == Parse(c, input, |beyond|)
  {
    var b := input;
    var stats: seq<T> := [];
    while |b| > 0
      invariant Parse(c, input, |beyond|) == Prefixed(stats, Parse(c, b, |beyond|))
    {
      if |b + beyond| < 2 { return Crash; }
      var l := StatCodec.GetInt((b + beyond)[0..2]);
      assert |b| >= 2 ==> (b + beyond)[0..2] == b[..2];
      if l + 2 > |b| { return Err(stats); }
      match c.Unmarshal(b[..2 + l]) {
        case None => return Err(stats);
        case Some(x) =>
          PrefixedTwice(stats, [x], Parse(c, b[2 + l..], |beyond|));
          b, stats := b[2 + l..], stats + [x];
      }
    }
    return Ok(stats);
  }

  // ---- Handing out entries -------------------------------------------------------------------

  lemma {:induction false} MarshalAllSplit<T>(c: Codec<T>, list: seq<T>, k: nat)
    requires k <= |list|
    ensures MarshalAll(c, list) == MarshalAll(c, list[..k]) + MarshalAll(c, list[k..])
  {
    if k == 0 {
      assert list[0..] == list;
    } else {
      MarshalAllSplit(c, list[1..], k - 1);
      assert list[..k][1..] == list[1..][..k - 1] && list[1..][k - 1..] == list[k..];
    }
  }

  lemma MarshalAllSnoc<T>(c: Codec<T>, list: seq<T>, k: nat)
    requires k < |list|
    ensures MarshalAll(c, list[..k + 1]) == MarshalAll(c, list[..k]) + c.Marshal(list[k])
  {
    MarshalAllSplit(c, list[..k + 1], k);
    assert list[..k + 1][..k] == list[..k] && list[..k + 1][k..] == [list[k]];
    assert MarshalAll(c, [list[k]]) == c.Marshal(list[k]) + MarshalAll(c, []);
  }

  // The first k entries, and no more, fit into `room` bytes.
  predicate Fits<T>(c: Codec<T>, list: seq<T>, room: nat, k: nat) {
    && k <= |list|
    && |MarshalAll(c, list[..k])| <= room
    && (k < |list| ==> |MarshalAll(c, list[..k])| + |c.Marshal(list[k])| > room)
  }

  lemma MarshalAllGrows<T>(c: Codec<T>, list: seq<T>, i: nat, j: nat)
    requires i < j <= |list|
    ensures |MarshalAll(c, list[..i])| + |c.Marshal(list[i])| <= |MarshalAll(c, list[..j])|
  {
    MarshalAllSnoc(c, list, i);
    MarshalAllSplit(c, list[..j], i + 1);
    assert list[..j][..i + 1] == list[..i + 1];
  }

  // There is only one such number.
  lemma FitsUnique<T>(c: Codec<T>, list: seq<T>, room: nat, i: nat, j: nat)
    requires Fits(c, list, room, i) && Fits(c, list, room, j)
    ensures i == j
  {
    if i < j { MarshalAllGrows(c, list, i, j); }
    if j < i { MarshalAllGrows(c, list, j, i); }
  }

  // How many of the entries fit.
  function MostFit<T>(c: Codec<T>, list: seq<T>, room: nat): (k: nat)
    ensures k <= |list|
  {
    if list == [] || |c.Marshal(list[0])| > room then 0
    else 1 + MostFit(c, list[1..], room - |c.Marshal(list[0])|)
  }

  lemma {:induction false} MostFitFits<T>(c: Codec<T>, list: seq<T>, room: nat)
    ensures Fits(c, list, room, MostFit(c, list, room))
    decreases |list|
  {
    if list != [] && |c.Marshal(list[0])| <= room {
      var k := MostFit(c, list[1..], room - |c.Marshal(list[0])|);
      MostFitFits(c, list[1..], room - |c.Marshal(list[0])|);
      assert list[..k + 1][1..] == list[1..][..k];
    }
  }

  // Copy m into p from `at` on.
  method CopyTo(p: array<byte>, at: nat, m: seq<byte>)
    requires at + |m| <= p.Length
    modifies p
    ensures p[..at + |m|] == old(p[..at]) + m
  {
    forall j | 0 <= j < |m| { p[at + j] := m[j]; }
    assert p[..at] == old(p[..at]) && p[at..at + |m|] == m;
  }

  datatype ReadResult = Got(n: nat) | ListFailed | TooSmall

  class ListHandle<T> {
    const codec: Codec<T>
    var list: seq<T>

    constructor (codec: Codec<T>)
      ensures list == [] && this.codec == codec
    {
      this.codec, list := codec, [];
    }

    // `listed` is what Dir.List answers at the time, None being an error; it is asked only at
    // offset 0.  A read hands out `k` whole entries, as many as fit; it fails when entries are
    // left and not even one fits.
    method ReadAt(p: array<byte>, offset: nat, listed: Option<seq<T>>) returns (r: ReadResult, ghost k: nat)
      modifies this`list, p
      ensures offset == 0 && listed == None ==> r == ListFailed && list == old(list)
      ensures offset != 0 || listed.Some? ==>
        var l := if offset == 0 then listed.value else old(list);
        && Fits(codec, l, p.Length, k) && list == l[k..]
        && (r == TooSmall <==> list != [] && MarshalAll(codec, l[..k]) == [])
        && (r != TooSmall ==> r == Got(|MarshalAll(codec, l[..k])|) && p[..r.n] == MarshalAll(codec, l[..k]))
    {
      k := 0;
      if offset == 0 {
        if listed == None { return ListFailed, 0; }
        list := listed.value;
      }
      ghost var l := list;
      var copied := 0;
      while |list| > 0
        invariant k <= |l| && list == l[k..]
        invariant copied == |MarshalAll(codec, l[..k])| <= p.Length && p[..copied] == MarshalAll(codec, l[..k])
        decreases |list|
      {
        var m := codec.Marshal(list[0]);
        if p.Length - copied < |m| {
          if copied == 0 {
            return TooSmall, k;
          }
          return Got(copied), k;
        }
        MarshalAllSnoc(codec, l, k);
        CopyTo(p, copied, m);
        copied := copied + |m|;
        list := list[1..];
        k := k + 1;
      }
      return Got(copied), k;
    }
  }

  // ---- The round trip ------------------------------------------------------------------------

  predicate AllFit<T>(c: Codec<T>, list: seq<T>, room: nat) {
    forall i :: 0 <= i < |list| ==> |c.Marshal(list[i])| <= room
  }

  lemma NextChunk<T>(c: Codec<T>, entries: seq<T>, at: nat, k: nat)
    requires at + k <= |entries|
    ensures MarshalAll(c, entries[..at]) + MarshalAll(c, entries[at..][..k]) == MarshalAll(c, entries[..at + k])
    ensures entries[at..][k..] == entries[at + k..]
  {
    MarshalAllSplit(c, entries[..at + k], at);
    assert entries[..at + k][..at] == entries[..at] && entries[..at + k][at..] == entries[at..][..k];
  }

  // Where the i-th of a series of reads starts, the reads being of sizes(0), sizes(1), ... bytes.
  function Position<T>(c: Codec<T>, entries: seq<T>, sizes: nat -> nat, i: nat): (at: nat)
    ensures at <= |entries|
  {
    if i == 0 then 0
    else
      var at := Position(c, entries, sizes, i - 1);
      at + MostFit(c, entries[at..], sizes(i - 1))
  }

  // The next entry, if there is one, fits the i-th read.
  predicate NextFits<T>(c: Codec<T>, entries: seq<T>, sizes: nat -> nat, i: nat) {
    var at := Position(c, entries, sizes, i);
    at < |entries| ==> |c.Marshal(entries[at])| <= sizes(i)
  }

  ghost predicate AllReadsFit<T>(c: Codec<T>, entries: seq<T>, sizes: nat -> nat) {
    forall i :: NextFits(c, entries, sizes, i)
  }

  // One read of `count` bytes, which starts at entry `at`.
  method ReadOnce<T>(h: ListHandle<T>, offset: nat, count: nat, entries: seq<T>, ghost at: nat)
    returns (data: Option<seq<byte>>, ghost k: nat)
    requires at <= |entries| && if offset == 0 then at == 0 else h.list == entries[at..]
    modifies h
    ensures Fits(h.codec, entries[at..], count, k) && h.list == entries[at + k..]
    ensures data == if at + k < |entries| && MarshalAll(h.codec, entries[at..][..k]) == [] then None
                    else Some(MarshalAll(h.codec, entries[at..][..k]))
  {
    var b := new byte[count];
    assert offset == 0 ==> entries[at..] == entries;
    var r;
    r, k := h.ReadAt(b, offset, Some(entries));
    match r
    case Got(n) => data := Some(b[..n]);
    case _ => data := None;
  }

  // No entry is empty.
  predicate Weighty<T>(c: Codec<T>, entries: seq<T>) {
    forall i :: 0 <= i < |entries| ==> c.Marshal(entries[i]) != []
  }

  // After i reads that were large enough, p is what they returned.
  predicate ReadSoFar<T>(c: Codec<T>, entries: seq<T>, sizes: nat -> nat, i: nat, at: nat, p: seq<byte>) {
    && at == Position(c, entries, sizes, i) && p == MarshalAll(c, entries[..at])
    && forall j: nat :: j < i ==> NextFits(c, entries, sizes, j)
  }

  // ReadAll over a directory whose entries are listed once, at the first read; the i-th read is of
  // sizes(i) bytes.  It returns the whole listing, unsplit, if and only if every read is large enough
  // for the next entry.  Otherwise it fails at the first read, number i, that is not, and what it
  // returns is the entries before.
  method ReadAll<T>(h: ListHandle<T>, entries: seq<T>, sizes: nat -> nat) returns (p: seq<byte>, ok: bool, ghost i: nat)
    requires Weighty(h.codec, entries)
    modifies h
    ensures ok <==> AllReadsFit(h.codec, entries, sizes)
    ensures ok ==> p == MarshalAll(h.codec, entries)
    ensures !ok ==> ReadSoFar(h.codec, entries, sizes, i, Position(h.codec, entries, sizes, i), p)
                    && !NextFits(h.codec, entries, sizes, i)
  {
    ghost var codec := h.codec;
    p := [];
    var n := 0;
    ghost var at := 0;
    while true
      invariant at <= |entries| && ReadSoFar(codec, entries, sizes, n, at, p)
      invariant if p == [] then at == 0 else h.list == entries[at..]
      decreases |entries| - at
    {
      var b, k := ReadOnce(h, |p|, sizes(n), entries, at);
      ReadStep(codec, entries, sizes, n, at, p, k);
      if b == None { return p, false, n; }
      p, at, n := p + b.value, at + k, n + 1;
      if |b.value| == 0 { break; }
    }
    EachFits(codec, entries, sizes, n, at, p);
    return p, true, n;
  }

  // What the i-th read, of k entries, does.
  lemma ReadStep<T>(c: Codec<T>, entries: seq<T>, sizes: nat -> nat, i: nat, at: nat, p: seq<byte>, k: nat)
    requires Weighty(c, entries) && at <= |entries| && ReadSoFar(c, entries, sizes, i, at, p)
    requires Fits(c, entries[at..], sizes(i), k)
    ensures var m := MarshalAll(c, entries[at..][..k]);
      if at + k < |entries| && m == [] then !NextFits(c, entries, sizes, i) && !AllReadsFit(c, entries, sizes)
      else
        && ReadSoFar(c, entries, sizes, i + 1, at + k, p + m)
        && (m == [] ==> at + k == |entries|) && (p + m == [] ==> at + k == 0) && (at + k < |entries| ==> k > 0)
  {
    var rest := entries[at..];
    MostFitFits(c, rest, sizes(i));
    FitsUnique(c, rest, sizes(i), k, MostFit(c, rest, sizes(i)));
    NextChunk(c, entries, at, k);
    if at + k > 0 { SomeBytes(c, entries[..at + k]); }
    if rest[k..] != [] && MarshalAll(c, rest[..k]) == [] {
      NothingFits(c, rest, sizes(i), k);
      assert !NextFits(c, entries, sizes, i);
    } else {
      FirstFits(c, rest, sizes(i), k);
      assert NextFits(c, entries, sizes, i);
    }
  }

  lemma SomeBytes<T>(c: Codec<T>, entries: seq<T>)
    requires Weighty(c, entries) && entries != []
    ensures MarshalAll(c, entries) != []
  {
    assert c.Marshal(entries[0]) != [];
  }

  lemma EachFits<T>(c: Codec<T>, entries: seq<T>, sizes: nat -> nat, i: nat, at: nat, p: seq<byte>)
    requires at == |entries| && ReadSoFar(c, entries, sizes, i, at, p)
    ensures AllReadsFit(c, entries, sizes) && p == MarshalAll(c, entries)
  {
    forall j: nat ensures NextFits(c, entries, sizes, j) { if j >= i { AtTheEnd(c, entries, sizes, i, j); } }
    assert entries[..at] == entries;
  }

  lemma FirstFits<T>(c: Codec<T>, list: seq<T>, room: nat, k: nat)
    requires Fits(c, list, room, k) && (list[k..] != [] ==> MarshalAll(c, list[..k]) != [])
    ensures list != [] ==> |c.Marshal(list[0])| <= room
  {
    if list != [] && k > 0 { MarshalAllGrows(c, list, 0, k); }
  }

  lemma {:induction false} AtTheEnd<T>(c: Codec<T>, entries: seq<T>, sizes: nat -> nat, i: nat, j: nat)
    requires i <= j && Position(c, entries, sizes, i) == |entries|
    ensures Position(c, entries, sizes, j) == |entries|
    decreases j
  {
    if i < j { AtTheEnd(c, entries, sizes, i, j - 1); }
  }

  lemma NothingFits<T>(c: Codec<T>, list: seq<T>, room: nat, k: nat)
    requires Fits(c, list, room, k) && list[k..] != [] && MarshalAll(c, list[..k]) == []
    requires Weighty(c, list)
    ensures list != [] && |c.Marshal(list[0])| > room
  {
    if k > 0 { MarshalAllGrows(c, list, 0, k); }
  }

  // Entries that were handed out together each fitted.
  lemma ChunkFits<T>(c: Codec<T>, list: seq<T>, room: nat, k: nat, i: nat)
    requires Fits(c, list, room, k) && i < k
    ensures |c.Marshal(list[i])| <= room
  {
    MarshalAllGrows(c, list, i, k);
  }

  // With reads of one size all entries must fit, since all are handed out in the end.
  lemma SameSize<T>(c: Codec<T>, entries: seq<T>, sizes: nat -> nat, size: nat)
    requires forall i :: sizes(i) == size
    ensures AllReadsFit(c, entries, sizes) <==> AllFit(c, entries, size)
  {
    if AllReadsFit(c, entries, sizes) {
      HandedOut(c, entries, sizes, size, |entries|);
    } else {
      var i: nat :| !NextFits(c, entries, sizes, i);
      assert !AllFit(c, entries, size) by { assert |c.Marshal(entries[Position(c, entries, sizes, i)])| > size; }
    }
  }

  // Each read gets on by an entry at least, and what is behind it fitted.
  lemma {:induction false} HandedOut<T>(c: Codec<T>, entries: seq<T>, sizes: nat -> nat, size: nat, i: nat)
    requires (forall j :: sizes(j) == size) && AllReadsFit(c, entries, sizes)
    ensures Position(c, entries, sizes, i) >= if i < |entries| then i else |entries|
    ensures forall j :: 0 <= j < Position(c, entries, sizes, i) ==> |c.Marshal(entries[j])| <= size
  {
    if i > 0 {
      HandedOut(c, entries, sizes, size, i - 1);
      var at := Position(c, entries, sizes, i - 1);
      var rest := entries[at..];
      var k := MostFit(c, rest, sizes(i - 1));
      assert NextFits(c, entries, sizes, i - 1);
      MostFitFits(c, rest, sizes(i - 1));
      forall j | at <= j < at + k ensures |c.Marshal(entries[j])| <= size { ChunkFits(c, rest, size, k, j - at); }
    }
  }

  const STAT_CODEC: Codec<StatCodec.Stat> :=
    Codec((s: StatCodec.Stat) => StatCodec.Marshal(s), (b: seq<byte>) => StatCodec.Unmarshal(b))

  // The listing of a directory survives the trip as text: what Readdir makes of the bytes is the
  // list of stats they were made from.
  lemma ListingRoundTrip(stats: seq<StatCodec.Stat>, spare: nat)
    requires forall i :: 0 <= i < |stats| ==> StatCodec.Encodable(stats[i])
    ensures Parse(STAT_CODEC, MarshalAll(STAT_CODEC, stats), spare) == Ok(stats)
  {
    forall i | 0 <= i < |stats| ensures Printable(STAT_CODEC, stats[i]) { StatCodec.StatRoundTrip(stats[i]); }
    ParsePrinted(STAT_CODEC, stats, spare);
  }

  // The size of a read, which the server caps so that the Rread fits.
  function ReadSize(clientSize: nat, msgSize: nat): nat
    requires msgSize >= READ_OVERHEAD
  {
    if msgSize - READ_OVERHEAD > clientSize then clientSize else msgSize - READ_OVERHEAD
  }

  // The client's Readdir on an open directory: it yields exactly the directory's stats just when each
  // of them fits a read, and fails otherwise.
  method ReaddirFid(h: ListHandle<StatCodec.Stat>, stats: seq<StatCodec.Stat>, clientSize: nat, msgSize: nat,
                    beyond: seq<byte>)
    returns (r: Option<Parsed<StatCodec.Stat>>)
    requires h.codec == STAT_CODEC && msgSize >= READ_OVERHEAD
    requires forall i :: 0 <= i < |stats| ==> StatCodec.Encodable(stats[i])
    modifies h
    ensures r == Some(Ok(stats)) || r == None
    ensures r.Some? <==> forall i :: 0 <= i < |stats| ==>
      |StatCodec.Marshal(stats[i])| <= clientSize && |StatCodec.Marshal(stats[i])| + READ_OVERHEAD <= msgSize
  {
    var size := ReadSize(clientSize, msgSize);
    var sizes: nat -> nat := (_: nat) => size;
    forall i | 0 <= i < |stats| ensures |STAT_CODEC.Marshal(stats[i])| >= 2 { StatCodec.StatRoundTrip(stats[i]); }
    SameSize(STAT_CODEC, stats, sizes, size);
    var b, ok, i := ReadAll(h, stats, sizes);
    if !ok { return None; }
    ListingRoundTrip(stats, |beyond|);
    var parsed := Readdir(STAT_CODEC, b, beyond);
    r := Some(parsed);
  }
}
