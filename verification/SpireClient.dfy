// The SPIRE API client (pkg/spireapi/client.go) over a server that may fail at
// any call, before or after carrying it out.
module SpireClient {
  import opened Wrappers
  import opened SpireApi
  import opened Store

  /** What befalls a request: whether it is answered with an error, and which of its calls are lost. */
  datatype Fate = Fate(err: bool, lost: set<nat>)

  predicate Faulty(f: Fate) {
    f.err || f.lost != {}
  }

  /** How many of the first `n` requests are faulty. */
  function FaultsIn(fates: nat -> Fate, n: nat): nat {
    if n == 0 then 0 else FaultsIn(fates, n - 1) + if Faulty(fates(n - 1)) then 1 else 0
  }

  /** Which of `n` calls are carried out. */
  function CarriedOut(f: Fate, n: nat): (took: seq<bool>)
    ensures |took| == n && forall i | 0 <= i < n :: took[i] <==> i !in f.lost
    ensures f.lost == {} ==> took == AllTrue(n)
  {
    seq(n, i => i !in f.lost)
  }

  /** All requests from `r` to `r'` are answered. */
  ghost predicate AllAnswered(fates: nat -> Fate, r: nat, r': nat) {
    r <= r' && forall n | r <= n < r' :: !fates(n).err
  }

  /** The last of them is the first that is not. */
  ghost predicate LastFailed(fates: nat -> Fate, r: nat, r': nat) {
    r < r' && AllAnswered(fates, r, r' - 1) && fates(r' - 1).err
  }

  lemma AnsweredOn(fates: nat -> Fate, r: nat, r': nat, r'': nat)
    requires AllAnswered(fates, r, r')
    ensures AllAnswered(fates, r', r'') ==> AllAnswered(fates, r, r'')
    ensures LastFailed(fates, r', r'') ==> LastFailed(fates, r, r'')
  {
  }

  /** The remote side: the entries, and requests that carry calls of one kind. What befalls each request
      is up to the environment and fixed from the start. */
  class Server {
    var entries: Entries
    const fates: nat -> Fate
    var requests: nat       // how many requests there were
    ghost var faults: nat   // how many of them were faulty

    /** Entries are held under their own IDs, and faults are those of the environment. */
    ghost predicate Valid()
      reads this
    {
      Keyed(entries) && faults == FaultsIn(fates, requests)
    }

    constructor (entries: Entries, fates: nat -> Fate)
      requires Keyed(entries)
      ensures Valid() && this.entries == entries && this.fates == fates && requests == 0
    {
      this.entries, this.fates := entries, fates;
      requests, faults := 0, 0;
    }

    /** The fate of the next request. */
    function NextFate(): Fate
      reads this`requests
    {
      fates(requests)
    }

    /** One BatchCreateEntry, BatchUpdateEntry or BatchDeleteEntry request. An RPC error (`err`)
        leaves it open which of the calls were carried out. */
    method Batch(calls: seq<Call>) returns (err: bool, codes: seq<nat>, ghost took: seq<bool>)
      requires Valid()
      modifies this
      ensures Valid() && requests == old(requests) + 1
      ensures err == old(NextFate()).err && |took| == |calls| && took == CarriedOut(old(NextFate()), |calls|)
      ensures entries == Run(old(entries), calls, took)
      ensures !err ==> codes == Statuses(old(entries), calls, took)
      ensures faults >= old(faults)
      ensures faults == old(faults) ==> !err && took == AllTrue(|calls|)
    {
      var fate := NextFate();
      codes, took := [], [];
      for i := 0 to |calls|
        invariant requests == old(requests) && faults == old(faults)
        invariant |took| == i && forall j | 0 <= j < i :: took[j] <==> j !in fate.lost
        invariant entries == Run(old(entries), calls[..i], took)
        invariant codes == Statuses(old(entries), calls[..i], took)
      {
        var carriedOut := i !in fate.lost;
        RunNext(old(entries), calls, took, carriedOut);
        if carriedOut {
          codes := codes + [StatusOf(entries, calls[i])];
          entries := Effect(entries, calls[i]);
        } else {
          codes := codes + [INTERNAL];
        }
        took := took + [carriedOut];
      }
      assert calls[..|calls|] == calls;
      assert took == CarriedOut(fate, |calls|);
      RunKeyed(old(entries), calls, took);
      err := fate.err;
      CountRequest(fate);
    }

    /** One more request, of that fate. */
    method CountRequest(fate: Fate)
      requires faults == FaultsIn(fates, requests) && fate == NextFate()
      modifies this`requests, this`faults
      ensures requests == old(requests) + 1 && faults == FaultsIn(fates, requests)
      ensures faults == old(faults) + if Faulty(fate) then 1 else 0
    {
      requests := requests + 1;
      faults := if Faulty(fate) then faults + 1 else faults;
    }

    /** The order in which one listing returns the entries. */
    method Listing() returns (listing: seq<Entry>)
      requires Valid()
      ensures Lists(listing, entries)
    {
      listing := [];
      var todo := entries.Keys;
      VisitedNone(entries, todo);
      while todo != {}
        invariant todo <= entries.Keys
        invariant Lists(listing, Visited(entries, todo))
      {
        var id :| id in todo;
        ListsVisit(listing, entries, todo, id);
        todo := todo - {id};
        listing := listing + [entries[id]];
      }
      VisitedAll(entries);
    }

    /** One ListEntries request: a page, and where the next one starts. */
    method Page(listing: seq<Entry>, start: nat) returns (err: bool, page: seq<ApiEntry>, next: Option<nat>)
      requires Valid() && start <= |listing|
      modifies this`requests, this`faults
      ensures Valid() && requests == old(requests) + 1 && err == old(NextFate()).err
      ensures faults >= old(faults) && (faults == old(faults) ==> !err)
      ensures !err ==>
        && start + |page| <= |listing|
        && (forall i | 0 <= i < |page| :: page[i] == AsApi(listing[start + i]))
        && next == (if start + |page| == |listing| then None else Some(start + |page|))
        && (next.Some? ==> page != [])
    {
      var size := if |listing| - start > 1000 then 1000 else |listing| - start;
      page := seq(size, i requires 0 <= i < size => AsApi(listing[start + i]));
      next := if start + size == |listing| then None else Some(start + size);
      err := NextFate().err;
      CountRequest(NextFate());
    }
  }

  class Client {
    const server: Server

    constructor (server: Server)
      ensures this.server == server
    {
      this.server := server;
    }

    /** Either an error, or every entry of the server once. It is an error exactly when a request for a page
        fails, and that request is the last one. */
    method ListEntries() returns (err: bool, entries: seq<Entry>)
      requires server.Valid()
      modifies server`requests, server`faults
      ensures server.Valid()
      ensures !err ==> Lists(entries, server.entries)
      ensures err ==> entries == []
      ensures server.requests > old(server.requests)
      ensures if err then LastFailed(server.fates, old(server.requests), server.requests)
              else AllAnswered(server.fates, old(server.requests), server.requests)
      ensures server.faults >= old(server.faults) && (server.faults == old(server.faults) ==> !err)
    {
      hide Lists, AsApi, OfApi, Keyed;
      var listing := server.Listing();
      entries := [];
      var pageToken: nat := 0;
      while true
        invariant pageToken == |entries| <= |listing| && entries == listing[..pageToken]
        invariant server.Valid() && server.faults >= old(server.faults) && server.requests >= old(server.requests)
        invariant AllAnswered(server.fates, old(server.requests), server.requests)
        decreases |listing| - pageToken
      {
        var failed, page, next := server.Page(listing, pageToken);
        if failed {
          return true, [];
        }
        var converted := ConvertPage(page, listing[pageToken..pageToken + |page|]);
        if converted.None? {
          return true, [];
        }
        entries := entries + converted.value;
        assert listing[..pageToken + |page|] == entries;
        if next.None? {
          break;
        }
        pageToken := next.value;
      }
      assert listing[..|listing|] == listing;
      err := false;
    }

    /** The conversion of one page that the server made of `sent`. */
    method ConvertPage(page: seq<ApiEntry>, ghost sent: seq<Entry>) returns (entries: Option<seq<Entry>>)
      requires |page| == |sent| && forall i | 0 <= i < |page| :: page[i] == AsApi(sent[i])
      ensures entries == Some(sent)
    {
      hide OfApi, AsApi, SameFields, AllDenoted, NoID, NoTrustDomain;
      var converted: seq<Entry> := [];
      for i := 0 to |page|
        invariant converted == sent[..i]
      {
        WireRoundTrip(sent[i]);
        var entry := FromAPIEntry(page[i]);
        if entry.None? {
          return None;
        }
        converted := converted + [entry.value];
      }
      assert sent[..|sent|] == sent;
      entries := Some(converted);
    }

    /** It is no error exactly when the request is answered, its call is carried out, and the status is OK or
        says that a similar entry exists. */
    method CreateEntry(entry: Entry) returns (err: bool, ghost took: bool)
      requires server.Valid()
      modifies server
      ensures server.Valid() && server.requests == old(server.requests) + 1
      ensures took <==> 0 !in old(server.NextFate()).lost
      ensures server.entries == Run(old(server.entries), [Create(entry)], [took])
      ensures err <==> old(server.NextFate()).err || !took ||
                       StatusOf(old(server.entries), Create(entry)) !in {OK, ALREADY_EXISTS}
      ensures server.faults >= old(server.faults) && (server.faults == old(server.faults) ==> took)
      ensures server.faults == old(server.faults) ==>
                (err <==> StatusOf(old(server.entries), Create(entry)) !in {OK, ALREADY_EXISTS})
    {
      var failed, codes; ghost var tooks;
      failed, codes, tooks := server.Batch([Create(entry)]);
      took := tooks[0];
      assert tooks == [took];
      if failed {
        return true, took;
      }
      if |codes| > 0 && codes[0] != 0 {
        if codes[0] == 6 {
          return false, took;
        }
        return true, took;
      }
      return false, took;
    }

    /** It is no error exactly when the request is answered, its call is carried out, and the entry exists. */
    method UpdateEntry(entry: Entry) returns (err: bool, ghost took: bool)
      requires server.Valid()
      modifies server
      ensures server.Valid() && server.requests == old(server.requests) + 1
      ensures took <==> 0 !in old(server.NextFate()).lost
      ensures server.entries == Run(old(server.entries), [Update(entry)], [took])
      ensures err <==> old(server.NextFate()).err || !took || entry.id !in old(server.entries)
      ensures server.faults >= old(server.faults) && (server.faults == old(server.faults) ==> took)
      ensures server.faults == old(server.faults) ==> (err <==> entry.id !in old(server.entries))
    {
      var failed, codes; ghost var tooks;
      failed, codes, tooks := server.Batch([Update(entry)]);
      took := tooks[0];
      assert tooks == [took];
      err := failed || (|codes| > 0 && codes[0] != 0);
    }

    /** It is no error exactly when the request is answered, its call is carried out, and the entry exists. */
    method DeleteEntry(id: string) returns (err: bool, ghost took: bool)
      requires server.Valid()
      modifies server
      ensures server.Valid() && server.requests == old(server.requests) + 1
      ensures took <==> 0 !in old(server.NextFate()).lost
      ensures server.entries == Run(old(server.entries), [Delete(id)], [took])
      ensures err <==> old(server.NextFate()).err || !took || id !in old(server.entries)
      ensures server.faults >= old(server.faults) && (server.faults == old(server.faults) ==> took)
      ensures server.faults == old(server.faults) ==> (err <==> id !in old(server.entries))
    {
      var failed, codes; ghost var tooks;
      failed, codes, tooks := server.Batch([Delete(id)]);
      took := tooks[0];
      assert tooks == [took];
      err := failed || (|codes| > 0 && codes[0] != 0);
    }

    /** Deletes in batches. Every batch before the one that failed, or all of them, were sent and
        answered; `took` covers those and the batch that failed. */
    method BatchDeleteEntries(ids: seq<string>) returns (err: bool, codes: seq<nat>, ghost took: seq<bool>)
      requires server.Valid()
      modifies server
      ensures server.Valid()
      ensures |codes| <= |took| <= |ids|
      ensures server.entries == Run(old(server.entries), Deletes(ids[..|took|]), took)
      ensures codes == Statuses(old(server.entries), Deletes(ids[..|codes|]), took[..|codes|])
      ensures if err then LastFailed(server.fates, old(server.requests), server.requests)
              else AllAnswered(server.fates, old(server.requests), server.requests)
      ensures !err ==> |codes| == |took| == |ids|
      ensures !err ==> server.requests == old(server.requests) + |RangesOf(|ids|, ENTRY_DELETE_BATCH_SIZE)|
      ensures server.faults >= old(server.faults)
      ensures server.faults == old(server.faults) ==> !err && took == AllTrue(|ids|)
      ensures err ==> (|codes|, |took|) in RangesOf(|ids|, ENTRY_DELETE_BATCH_SIZE)
      ensures (forall i | |codes| <= i < |took| :: !took[i]) ==>
        server.entries == Run(old(server.entries), Deletes(ids[..|codes|]), took[..|codes|])
    {
      var fn := new DeleteBatch(server, ids);
      err := RunBatch(|ids|, ENTRY_DELETE_BATCH_SIZE, fn);
      codes, took := fn.codes, fn.took;
      var k := |codes|;
      assert Deletes(ids[..|took|]) == Deletes(ids[..k]) + Deletes(ids[k..|took|]);
      assert took == took[..k] + took[k..];
      RunAppend(old(server.entries), Deletes(ids[..k]), took[..k], Deletes(ids[k..|took|]), took[k..]);
      if forall i | k <= i < |took| :: !took[i] {
        RunNone(Run(old(server.entries), Deletes(ids[..k]), took[..k]), Deletes(ids[k..|took|]), took[k..]);
      }
    }
  }

  const ENTRY_DELETE_BATCH_SIZE := 200

  /** The ranges that runBatch passes to its function from `i` on. */
  function Ranges(i: nat, size: nat, batch: nat): seq<(nat, nat)>
    requires batch > 0
    decreases size - i
  {
    if i >= size then []
    else
      var n := if size - i > batch then batch else size - i;
      [(i, i + n)] + Ranges(i + n, size, batch)
  }

  /** The ranges follow each other, are not empty, not longer than a batch, and cover everything. */
  lemma {:induction false} RangesPartition(i: nat, size: nat, batch: nat)
    requires batch > 0 && i <= size
    ensures
      var r := Ranges(i, size, batch);
      && (forall k | 0 <= k < |r| :: r[k].0 < r[k].1 <= size && r[k].1 - r[k].0 <= batch)
      && (forall k | 0 <= k < |r| - 1 :: r[k].1 == r[k + 1].0 && r[k].1 - r[k].0 == batch)
      && (r == [] <==> i == size)
      && (r != [] ==> r[0].0 == i && r[|r| - 1].1 == size)
    decreases size - i
  {
    if i < size {
      var n := if size - i > batch then batch else size - i;
      RangesPartition(i + n, size, batch);
    }
  }

  /** The function literal of BatchDeleteEntries, with the variables it captures. */
  class DeleteBatch {
    const server: Server
    const ids: seq<string>
    var codes: seq<nat>
    ghost var took: seq<bool>
    ghost var passed: seq<(nat, nat)>   // the ranges of the calls so far
    ghost const before: Entries
    ghost const faultsBefore: nat

    constructor (server: Server, ids: seq<string>)
      requires server.Valid()
      ensures this.server == server && this.ids == ids && codes == [] && took == [] && passed == []
      ensures before == server.entries && faultsBefore == server.faults && Valid()
    {
      this.server := server;
      this.ids := ids;
      codes, took, passed := [], [], [];
      before, faultsBefore := server.entries, server.faults;
    }

    /** All batches so far were answered. */
    ghost predicate Valid()
      reads this, server
    {
      && server.Valid()
      && |codes| == |took| <= |ids|
      && server.entries == Run(before, Deletes(ids[..|took|]), took)
      && codes == Statuses(before, Deletes(ids[..|took|]), took)
      && server.faults >= faultsBefore
      && (server.faults == faultsBefore ==> took == AllTrue(|took|))
    }

    lemma BatchesAnswered()
      requires Valid()
      ensures server.Valid() && |codes| == |took| <= |ids| && took == took[..|codes|]
      ensures server.entries == Run(before, Deletes(ids[..|took|]), took)
      ensures codes == Statuses(before, Deletes(ids[..|codes|]), took)
      ensures server.faults >= faultsBefore && (server.faults == faultsBefore ==> took == AllTrue(|took|))
    {
    }

    method Call(start: nat, end: nat) returns (err: bool)
      requires Valid() && start == |took| <= end <= |ids|
      modifies this, server
      ensures server.Valid()
      ensures |took| == end && took[..start] == old(took) && passed == old(passed) + [(start, end)]
      ensures server.entries == Run(before, Deletes(ids[..end]), took)
      ensures !err ==> Valid()
      ensures err ==> codes == old(codes) && server.faults > faultsBefore
      ensures server.requests == old(server.requests) + 1 && err == old(server.NextFate()).err
      ensures took[start..] == CarriedOut(old(server.NextFate()), end - start)
    {
      hide Run, Statuses;
      var batchIDs := ids[start..end];
      passed := passed + [(start, end)];
      var failed, results; ghost var tooks;
      failed, results, tooks := server.Batch(Deletes(batchIDs));
      assert Deletes(ids[..end]) == Deletes(ids[..start]) + Deletes(batchIDs);
      RunAppend(before, Deletes(ids[..start]), took, Deletes(batchIDs), tooks);
      StatusesAppend(before, Deletes(ids[..start]), took, Deletes(batchIDs), tooks);
      took := took + tooks;
      if failed {
        return true;
      }
      for i := 0 to |results|
        invariant codes == old(codes) + results[..i]
        invariant server.faults >= faultsBefore && (server.faults == faultsBefore ==> took == AllTrue(|took|))
        invariant server.Valid() && server.requests == old(server.requests) + 1
        invariant passed == old(passed) + [(start, end)]
        invariant took == old(took) + tooks && server.entries == Run(before, Deletes(ids[..end]), took)
      {
        codes := codes + [results[i]];
      }
      assert results[..|results|] == results;
      err := false;
    }
  }

  /** runBatch: for any batch value it terminates. It passes the ranges in order: all of them, or those
      up to the one that fails. */
  method RunBatch(size: nat, batch: int, fn: DeleteBatch) returns (err: bool)
    requires fn.Valid() && fn.took == [] && fn.passed == [] && size == |fn.ids|
    modifies fn, fn.server
    ensures fn.server.Valid()
    ensures |fn.codes| <= |fn.took| <= |fn.ids|
    ensures fn.server.entries == Run(fn.before, Deletes(fn.ids[..|fn.took|]), fn.took)
    ensures fn.codes == Statuses(fn.before, Deletes(fn.ids[..|fn.codes|]), fn.took[..|fn.codes|])
    ensures !err ==> |fn.codes| == |fn.took| == size && fn.passed == RangesOf(size, batch)
    ensures err ==> fn.passed != [] && fn.passed <= RangesOf(size, batch)
    ensures err ==> fn.passed[|fn.passed| - 1] == (|fn.codes|, |fn.took|)
    ensures fn.server.requests == old(fn.server.requests) + |fn.passed|
    ensures if err then LastFailed(fn.server.fates, old(fn.server.requests), fn.server.requests)
            else AllAnswered(fn.server.fates, old(fn.server.requests), fn.server.requests)
    ensures fn.server.faults >= fn.faultsBefore
    ensures fn.server.faults == fn.faultsBefore ==> !err && fn.took == AllTrue(|fn.took|)
  {
    hide Run, Statuses, Ranges, DeleteBatch.Valid, Server.Valid;
    ghost var all := RangesOf(size, batch);
    var batch := if batch < 1 then size else batch;
    var i := 0;
    while i < size
      invariant fn.Valid() && i == |fn.took| <= size
      invariant fn.server.requests == old(fn.server.requests) + |fn.passed|
      invariant AllAnswered(fn.server.fates, old(fn.server.requests), fn.server.requests)
      invariant if size == 0 then fn.passed == [] else all == fn.passed + Ranges(i, size, batch)
    {
      var n := size - i;
      if n > batch {
        n := batch;
      }
      RangesNext(i, size, batch, n);
      fn.BatchesAnswered();
      err := fn.Call(i, i + n);
      assert all == fn.passed + Ranges(i + n, size, batch);
      if err {
        return true;
      }
      i := i + n;
    }
    RangesEnd(size, batch);
    fn.BatchesAnswered();
    err := false;
  }

  lemma RangesNext(i: nat, size: nat, batch: nat, n: nat)
    requires batch > 0 && i < size && n == if size - i > batch then batch else size - i
    ensures Ranges(i, size, batch) == [(i, i + n)] + Ranges(i + n, size, batch)
  {
  }

  lemma RangesEnd(size: nat, batch: nat)
    ensures batch > 0 ==> Ranges(size, size, batch) == []
  {
  }

  /** The ranges that runBatch passes when nothing fails: a batch below 1 means everything at once. */
  function RangesOf(size: nat, batch: int): seq<(nat, nat)> {
    if size == 0 then [] else Ranges(0, size, if batch < 1 then size else batch)
  }
}
