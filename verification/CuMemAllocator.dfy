/** Creating, mapping, unmapping and releasing chunked GPU memory
    (csrc/cumem_allocator.cpp, ROCm branch).

    The driver is an object whose calls may fail at any time; a failed call changes nothing.
    `errorCode` is the file's sticky global: a driver error sets it, and only the Python entry
    points clear it. */
module CuMemAllocator {
  import opened Common
  import opened CuMemChunks

  // ----- finite maps built key by key

  ghost function Extend<K, V>(base: map<K, V>, keys: seq<K>, vals: seq<V>): map<K, V>
    requires |keys| == |vals|
  {
    if keys == [] then base
    else Extend(base, keys[1..], vals[1..])[keys[0] := vals[0]]
  }

  /** The keys are new to the map and differ from each other. */
  ghost predicate New<K, V>(base: map<K, V>, keys: seq<K>) {
    && (forall i :: 0 <= i < |keys| ==> keys[i] !in base)
    && (forall i, j :: 0 <= i < j < |keys| ==> keys[i] != keys[j])
  }

  lemma {:induction false} ExtendKeys<K, V>(base: map<K, V>, keys: seq<K>, vals: seq<V>)
    requires |keys| == |vals|
    ensures forall k :: k in Extend(base, keys, vals) <==> k in base || k in keys
    ensures forall k :: k in base && k !in keys ==> Extend(base, keys, vals)[k] == base[k]
  {
    if keys != [] {
      ExtendKeys(base, keys[1..], vals[1..]);
      assert keys == [keys[0]] + keys[1..];
    }
  }

  lemma ExtendKeeps<K, V>(base: map<K, V>, keys: seq<K>, vals: seq<V>)
    requires |keys| == |vals| && New(base, keys)
    ensures Keeps(base, Extend(base, keys, vals))
  {
    ExtendKeys(base, keys, vals);
  }

  /** Nothing of base was lost or changed. */
  ghost predicate Keeps<K, V>(base: map<K, V>, m: map<K, V>) {
    forall k :: k in base ==> k in m && m[k] == base[k]
  }

  lemma {:induction false} ExtendSnoc<K, V>(base: map<K, V>, keys: seq<K>, vals: seq<V>, k: K, v: V)
    requires |keys| == |vals| && k !in keys
    ensures Extend(base, keys + [k], vals + [v]) == Extend(base, keys, vals)[k := v]
  {
    if keys != [] {
      assert (keys + [k])[1..] == keys[1..] + [k] && (vals + [v])[1..] == vals[1..] + [v];
      ExtendSnoc(base, keys[1..], vals[1..], k, v);
    } else {
      assert (keys + [k])[1..] == [] && (vals + [v])[1..] == [];
    }
  }

  /** Removing the first of the added keys leaves the others. */
  lemma ExtendDropFirst<K, V>(base: map<K, V>, keys: seq<K>, vals: seq<V>)
    requires |keys| == |vals| > 0 && New(base, keys)
    ensures Extend(base, keys, vals) - {keys[0]} == Extend(base, keys[1..], vals[1..])
    ensures keys[0] in Extend(base, keys, vals) && Extend(base, keys, vals)[keys[0]] == vals[0]
    ensures New(base, keys[1..])
  {
    ExtendKeys(base, keys[1..], vals[1..]);
    forall i | 0 <= i < |keys[1..]| ensures keys[1..][i] != keys[0] {
      assert keys[1..][i] == keys[i + 1];
    }
  }

  lemma NewSnoc<K, V>(base: map<K, V>, keys: seq<K>, vals: seq<V>, k: K)
    requires |keys| == |vals| && New(base, keys) && k !in Extend(base, keys, vals)
    ensures New(base, keys + [k]) && k !in keys
  {
    ExtendKeys(base, keys, vals);
  }

  // ----- the layout of a reservation

  datatype Mapping = Mapping(size: nat, handle: nat)

  /** The address of each chunk: d, then each chunk right after the one before. */
  function Addresses(d: nat, chunks: seq<nat>): (a: seq<nat>)
    ensures |a| == |chunks|
    decreases chunks
  {
    if chunks == [] then [] else [d] + Addresses(d + chunks[0], chunks[1..])
  }

  function Tiles(chunks: seq<nat>, hs: seq<nat>): (t: seq<Mapping>)
    requires |chunks| == |hs|
    ensures |t| == |chunks| && forall i :: 0 <= i < |t| ==> t[i] == Mapping(chunks[i], hs[i])
  {
    seq(|chunks|, i requires 0 <= i < |chunks| => Mapping(chunks[i], hs[i]))
  }

  lemma {:induction false} AddressAt(d: nat, chunks: seq<nat>, i: nat)
    requires i < |chunks|
    ensures Addresses(d, chunks)[i] == d + Sum(chunks[..i])
    decreases chunks
  {
    if i > 0 {
      AddressAt(d + chunks[0], chunks[1..], i - 1);
      assert chunks[..i][1..] == chunks[1..][..i - 1];
    }
  }

  ghost predicate InTile(d: nat, chunks: seq<nat>, i: nat, x: nat)
    requires i < |chunks|
  {
    Addresses(d, chunks)[i] <= x < Addresses(d, chunks)[i] + chunks[i]
  }

  /** The tiles cover [d, d + size) without gap or overlap, in order. */
  lemma {:induction false} TilesPartition(d: nat, chunks: seq<nat>, x: nat)
    ensures d <= x < d + Sum(chunks) <==> exists i: nat :: i < |chunks| && InTile(d, chunks, i, x)
    ensures forall i: nat, j: nat :: i < j < |chunks| && InTile(d, chunks, i, x) ==> !InTile(d, chunks, j, x)
    decreases chunks
  {
    if chunks != [] {
      var rest := chunks[1..];
      TilesPartition(d + chunks[0], rest, x);
      forall i: nat | 0 < i < |chunks| ensures InTile(d, chunks, i, x) <==> InTile(d + chunks[0], rest, i - 1, x) {}
      if d + chunks[0] <= x < d + Sum(chunks) {
        var i: nat :| i < |rest| && InTile(d + chunks[0], rest, i, x);
        assert InTile(d, chunks, i + 1, x);
      } else if d <= x < d + chunks[0] {
        assert InTile(d, chunks, 0, x);
      }
      forall j: nat | 0 < j < |chunks| && InTile(d, chunks, j, x) ensures d + chunks[0] <= x < d + Sum(chunks) {
        assert InTile(d + chunks[0], rest, j - 1, x);
      }
    }
  }

  /** The first error among the statuses of a series of calls, or 0. */
  ghost function FirstError(statuses: seq<int>): int {
    if statuses == [] then 0
    else
      var before := FirstError(statuses[..|statuses| - 1]);
      if before != 0 then before else statuses[|statuses| - 1]
  }

  lemma FirstErrorSnoc(statuses: seq<int>, status: int)
    ensures FirstError(statuses + [status]) ==
            if FirstError(statuses) != 0 then FirstError(statuses) else status
  {
    assert (statuses + [status])[..|statuses|] == statuses;
  }

  // ----- the driver

  datatype Call =
    | Granularity
    | ReserveAddress(size: nat, alignment: nat)
    | FreeAddress(address: nat, size: nat)
    | Create(size: nat)
    | Release(handle: nat)
    | Map(address: nat, size: nat, handle: nat)
    | Unmap(address: nat, size: nat)
    | SetAccess(address: nat, size: nat)

  /** Create the first n chunks. */
  ghost function Creates(chunks: seq<nat>, n: nat): (r: seq<Call>)
    requires n <= |chunks|
    ensures |r| == n
  {
    if n == 0 then [] else Creates(chunks, n - 1) + [Create(chunks[n - 1])]
  }

  /** Map the first n chunks, each right after the one before. */
  ghost function Maps(d: nat, chunks: seq<nat>, hs: seq<nat>, n: nat): (r: seq<Call>)
    requires n <= |chunks| == |hs|
    ensures |r| == n
  {
    if n == 0 then [] else Maps(d, chunks, hs, n - 1) + [Map(Addresses(d, chunks)[n - 1], chunks[n - 1], hs[n - 1])]
  }

  /** Unmap the first n chunks, each where it was mapped. */
  ghost function Unmaps(d: nat, chunks: seq<nat>, n: nat): (r: seq<Call>)
    requires n <= |chunks|
    ensures |r| == n
  {
    if n == 0 then [] else Unmaps(d, chunks, n - 1) + [Unmap(Addresses(d, chunks)[n - 1], chunks[n - 1])]
  }

  /** Release the first n handles. */
  ghost function Releases(hs: seq<nat>, n: nat): (r: seq<Call>)
    requires n <= |hs|
    ensures |r| == n
  {
    if n == 0 then [] else Releases(hs, n - 1) + [Release(hs[n - 1])]
  }

  /** What create_and_map asks of the driver, the undo calls included. */
  ghost function AskedBy(outcome: Outcome, size: nat, d: nat, chunks: seq<nat>, hs: seq<nat>): seq<Call>
    requires |hs| == |chunks| && (outcome.CreateFailed? || outcome.MapFailed? ==> outcome.at < |chunks|)
  {
    var n := |chunks|;
    match outcome
    case CreateFailed(at, _) => Creates(chunks, at + 1) + Releases(hs, at)
    case MapFailed(at, _) => Creates(chunks, n) + MapUndone(d, chunks, hs, at)
    case _ => Creates(chunks, n) + (Maps(d, chunks, hs, n) + [SetAccess(d, size)])
  }

  /** The mapping of the chunk at `at` failed: the earlier ones are unmapped, all handles released. */
  ghost function MapUndone(d: nat, chunks: seq<nat>, hs: seq<nat>, at: nat): seq<Call>
    requires at < |chunks| == |hs|
  {
    Maps(d, chunks, hs, at + 1) + (Unmaps(d, chunks, at) + Releases(hs, |hs|))
  }

  /** The calls one by one: every chunk with its own size, at the sum of the sizes before it. */
  lemma {:induction false} AskedAt(d: nat, chunks: seq<nat>, hs: seq<nat>, n: nat, i: nat)
    requires i < n <= |chunks| == |hs|
    ensures Creates(chunks, n)[i] == Create(chunks[i])
    ensures Maps(d, chunks, hs, n)[i] == Map(d + Sum(chunks[..i]), chunks[i], hs[i])
    ensures Unmaps(d, chunks, n)[i] == Unmap(d + Sum(chunks[..i]), chunks[i])
    ensures Releases(hs, n)[i] == Release(hs[i])
  {
    if i == n - 1 {
      AddressAt(d, chunks, i);
    } else {
      AskedAt(d, chunks, hs, n - 1, i);
    }
  }

  lemma {:induction false} UnmapsPrefix(d: nat, chunks: seq<nat>, m: nat, n: nat)
    requires n <= m <= |chunks|
    ensures Unmaps(d, chunks[..m], n) == Unmaps(d, chunks, n)
  {
    if n > 0 {
      UnmapsPrefix(d, chunks, m, n - 1);
      AddressesPrefix(d, chunks, m);
    }
  }

  lemma {:induction false} ReleasesPrefix(hs: seq<nat>, m: nat, n: nat)
    requires n <= m <= |hs|
    ensures Releases(hs[..m], n) == Releases(hs, n)
  {
    if n > 0 {
      ReleasesPrefix(hs, m, n - 1);
    }
  }

  /** One more call of a series. */
  lemma CreatesNext(before: seq<Call>, chunks: seq<nat>, n: nat)
    requires n < |chunks|
    ensures before + Creates(chunks, n) + [Create(chunks[n])] == before + Creates(chunks, n + 1)
  {
  }

  lemma MapsNext(before: seq<Call>, d: nat, chunks: seq<nat>, hs: seq<nat>, n: nat)
    requires n < |chunks| == |hs|
    ensures before + Maps(d, chunks, hs, n) + [Map(Addresses(d, chunks)[n], chunks[n], hs[n])] ==
            before + Maps(d, chunks, hs, n + 1)
  {
    hide Addresses;
  }

  lemma NoneYet(before: seq<Call>, d: nat, chunks: seq<nat>, hs: seq<nat>)
    requires |chunks| == |hs|
    ensures before + Creates(chunks, 0) == before == before + Maps(d, chunks, hs, 0)
  {
  }

  /** The calls of create_and_map, outcome by outcome. */
  lemma CreateAsked(before: seq<Call>, outcome: Outcome, size: nat, d: nat, chunks: seq<nat>, hs: seq<nat>)
    requires |hs| == |chunks| && outcome.CreateFailed? && outcome.at < |chunks|
    ensures before + Creates(chunks, outcome.at + 1) + Releases(hs, outcome.at) ==
            before + AskedBy(outcome, size, d, chunks, hs)
  {
    ConcatAssoc(before, Creates(chunks, outcome.at + 1), Releases(hs, outcome.at));
  }

  lemma MapAsked(before: seq<Call>, outcome: Outcome, size: nat, d: nat, chunks: seq<nat>, hs: seq<nat>)
    requires |hs| == |chunks| && (outcome.MapFailed? ==> outcome.at < |chunks|) && !outcome.CreateFailed?
    ensures outcome.MapFailed? ==>
              before + Creates(chunks, |chunks|) + MapUndone(d, chunks, hs, outcome.at) ==
              before + AskedBy(outcome, size, d, chunks, hs)
    ensures !outcome.MapFailed? ==>
              before + Creates(chunks, |chunks|) + Maps(d, chunks, hs, |chunks|) + [SetAccess(d, size)] ==
              before + AskedBy(outcome, size, d, chunks, hs)
  {
    hide Creates, Maps, MapUndone;
    if outcome.MapFailed? {
      ConcatAssoc(before, Creates(chunks, |chunks|), MapUndone(d, chunks, hs, outcome.at));
    } else {
      ConcatAssoc(before + Creates(chunks, |chunks|), Maps(d, chunks, hs, |chunks|), [SetAccess(d, size)]);
      ConcatAssoc(before, Creates(chunks, |chunks|), Maps(d, chunks, hs, |chunks|) + [SetAccess(d, size)]);
    }
  }

  lemma UndoneAsked(before: seq<Call>, d: nat, chunks: seq<nat>, hs: seq<nat>, at: nat)
    requires at < |chunks| == |hs|
    ensures before + Maps(d, chunks, hs, at + 1) + (Unmaps(d, chunks, at) + Releases(hs, |chunks|)) ==
            before + MapUndone(d, chunks, hs, at)
  {
    hide Maps, Unmaps, Releases;
    ConcatAssoc(before, Maps(d, chunks, hs, at + 1), Unmaps(d, chunks, at) + Releases(hs, |chunks|));
  }

  class Driver {
    var handles: map<nat, nat>        // live allocation handles and their sizes
    var mappings: map<nat, Mapping>   // mapped ranges by base address
    var reservations: map<nat, nat>   // reserved address ranges and their sizes
    var errorCode: int                // the sticky global error code
    ghost var trace: seq<int>         // the status of every driver call so far
    ghost var asked: seq<Call>        // what every driver call so far asked for

    method MemCreate(size: nat) returns (status: int, h: nat)
      modifies this`handles, this`trace, this`asked
      ensures trace == old(trace) + [status] && asked == old(asked) + [Create(size)]
      ensures status == 0 ==> h !in old(handles) && handles == old(handles)[h := size]
      ensures status != 0 ==> handles == old(handles)
    {
      status, h := *, *;
      if status == 0 {
        if h in handles {
          status := 2;
        } else {
          handles := handles[h := size];
        }
      }
      trace, asked := trace + [status], asked + [Create(size)];
    }

    method MemMap(address: nat, size: nat, h: nat) returns (status: int)
      modifies this`mappings, this`trace, this`asked
      ensures trace == old(trace) + [status] && asked == old(asked) + [Map(address, size, h)]
      ensures status == 0 ==> address !in old(mappings) && mappings == old(mappings)[address := Mapping(size, h)]
      ensures status != 0 ==> mappings == old(mappings)
    {
      status := *;
      if status == 0 {
        if address in mappings {
          status := 1;
        } else {
          mappings := mappings[address := Mapping(size, h)];
        }
      }
      trace, asked := trace + [status], asked + [Map(address, size, h)];
    }

    method MemUnmap(address: nat, size: nat) returns (status: int)
      modifies this`mappings, this`trace, this`asked
      ensures trace == old(trace) + [status] && asked == old(asked) + [Unmap(address, size)]
      ensures status == 0 ==> address in old(mappings) && mappings == old(mappings) - {address}
      ensures status != 0 ==> mappings == old(mappings)
    {
      status := *;
      if status == 0 {
        if address in mappings && mappings[address].size == size {
          mappings := mappings - {address};
        } else {
          status := 1;
        }
      }
      trace, asked := trace + [status], asked + [Unmap(address, size)];
    }

    method MemRelease(h: nat) returns (status: int)
      modifies this`handles, this`trace, this`asked
      ensures trace == old(trace) + [status] && asked == old(asked) + [Release(h)]
      ensures status == 0 ==> h in old(handles) && handles == old(handles) - {h}
      ensures status != 0 ==> handles == old(handles)
    {
      status := *;
      if status == 0 {
        if h in handles {
          handles := handles - {h};
        } else {
          status := 1;
        }
      }
      trace, asked := trace + [status], asked + [Release(h)];
    }

    method MemAddressReserve(size: nat, alignment: nat) returns (status: int, d: nat)
      modifies this`reservations, this`trace, this`asked
      ensures trace == old(trace) + [status] && asked == old(asked) + [ReserveAddress(size, alignment)]
      ensures status == 0 ==> d !in old(reservations) && reservations == old(reservations)[d := size]
      ensures status != 0 ==> reservations == old(reservations)
    {
      status, d := *, *;
      if status == 0 {
        if d in reservations {
          status := 2;
        } else {
          reservations := reservations[d := size];
        }
      }
      trace, asked := trace + [status], asked + [ReserveAddress(size, alignment)];
    }

    method MemAddressFree(d: nat, size: nat) returns (status: int)
      modifies this`reservations, this`trace, this`asked
      ensures trace == old(trace) + [status] && asked == old(asked) + [FreeAddress(d, size)]
      ensures status == 0 ==> d in old(reservations) && old(reservations)[d] == size
      ensures status == 0 ==> reservations == old(reservations) - {d}
      ensures status != 0 ==> reservations == old(reservations)
    {
      status := *;
      if status == 0 {
        if d in reservations && reservations[d] == size {
          reservations := reservations - {d};
        } else {
          status := 1;
        }
      }
      trace, asked := trace + [status], asked + [FreeAddress(d, size)];
    }

    method MemGetAllocationGranularity() returns (status: int, granularity: nat)
      modifies this`trace, this`asked
      ensures trace == old(trace) + [status] && asked == old(asked) + [Granularity]
      ensures 0 < granularity < TWO_64
    {
      status, granularity := *, *;
      if granularity == 0 || granularity >= TWO_64 {
        granularity := 1;
      }
      trace, asked := trace + [status], asked + [Granularity];
    }

    method MemSetAccess(address: nat, size: nat) returns (status: int)
      modifies this`trace, this`asked
      ensures trace == old(trace) + [status] && asked == old(asked) + [SetAccess(address, size)]
    {
      status := *;
      trace, asked := trace + [status], asked + [SetAccess(address, size)];
    }

    /** CUDA_CHECK: an error is remembered. */
    method Check(status: int)
      modifies this`errorCode
      ensures errorCode == if status != 0 then status else old(errorCode)
    {
      if status != 0 {
        errorCode := status;
      }
    }

    // ----- undo loops

    /** Release the handles in order, going on after an error. */
    method ReleaseAll(hs: seq<nat>, ghost base: map<nat, nat>, ghost sizes: seq<nat>)
      returns (firstError: int, ghost statuses: seq<int>)
      requires |hs| == |sizes| && New(base, hs) && handles == Extend(base, hs, sizes)
      modifies this`handles, this`trace, this`asked
      ensures trace == old(trace) + statuses && asked == old(asked) + Releases(hs, |hs|)
      ensures |statuses| == |hs| && firstError == FirstError(statuses)
      ensures firstError == 0 ==> handles == base
      ensures Keeps(base, handles)
    {
      hide New, Extend, FirstError;
      firstError, statuses := 0, [];
      ExtendKeeps(base, hs, sizes);
      ExtendNone(base, hs, sizes);
      for j := 0 to |hs|
        invariant trace == old(trace) + statuses && asked == old(asked) + Releases(hs, j)
        invariant |statuses| == j && firstError == FirstError(statuses)
        invariant New(base, hs[j..])
        invariant firstError == 0 ==> handles == Extend(base, hs[j..], sizes[j..])
        invariant Keeps(base, handles)
      {
        DropAt(base, hs, sizes, j);
        var status := MemRelease(hs[j]);
        FirstErrorSnoc(statuses, status);
        statuses := statuses + [status];
        if status != 0 && firstError == 0 {
          firstError := status;
        }
      }
    }

    /** Unmap consecutive chunks starting at d, going on after an error. */
    method UnmapAll(d: nat, chunks: seq<nat>, ghost base: map<nat, Mapping>, ghost tiles: seq<Mapping>)
      returns (firstError: int, ghost statuses: seq<int>)
      requires |chunks| == |tiles| && New(base, Addresses(d, chunks))
      requires mappings == Extend(base, Addresses(d, chunks), tiles)
      modifies this`mappings, this`trace, this`asked
      ensures trace == old(trace) + statuses && asked == old(asked) + Unmaps(d, chunks, |chunks|)
      ensures |statuses| == |chunks| && firstError == FirstError(statuses)
      ensures firstError == 0 ==> mappings == base
      ensures Keeps(base, mappings)
    {
      hide New, Extend, FirstError, Addresses, Sum;
      firstError, statuses := 0, [];
      ghost var addresses := Addresses(d, chunks);
      ExtendKeeps(base, addresses, tiles);
      ExtendNone(base, addresses, tiles);
      var unmappedSize := 0;
      for j := 0 to |chunks|
        invariant trace == old(trace) + statuses && asked == old(asked) + Unmaps(d, chunks, j)
        invariant |statuses| == j && firstError == FirstError(statuses)
        invariant unmappedSize == Sum(chunks[..j])
        invariant New(base, addresses[j..])
        invariant firstError == 0 ==> mappings == Extend(base, addresses[j..], tiles[j..])
        invariant Keeps(base, mappings)
      {
        AddressAt(d, chunks, j);
        SumStep(chunks, j);
        DropAt(base, addresses, tiles, j);
        var status := MemUnmap(d + unmappedSize, chunks[j]);
        FirstErrorSnoc(statuses, status);
        statuses := statuses + [status];
        if status != 0 && firstError == 0 {
          firstError := status;
        }
        unmappedSize := unmappedSize + chunks[j];
      }
    }

    // ----- create_and_map

    /** Lines 154-156: release the first i handles; none of them is held when i is 0. */
    method UndoCreates(chunks: seq<nat>, hs: seq<nat>, i: nat, ghost base: map<nat, nat>)
      returns (ghost undo: seq<int>)
      requires i <= |chunks| == |hs| && New(base, hs[..i]) && handles == Extend(base, hs[..i], chunks[..i])
      modifies this`handles, this`trace, this`asked
      ensures trace == old(trace) + undo && |undo| == i
      ensures asked == old(asked) + Releases(hs, i)
      ensures FirstError(undo) == 0 ==> handles == base
      ensures Keeps(base, handles)
    {
      hide New, Extend, FirstError, Releases;
      var firstError;
      firstError, undo := ReleaseAll(hs[..i], base, chunks[..i]);
      ReleasesPrefix(hs, i, i);
    }

    /** Lines 150-159: create one handle per chunk; on a failure release those created before. */
    method CreateAll(chunks: seq<nat>, hs: array<nat>)
      returns (ok: bool, ghost at: nat, ghost status: int, ghost calls: seq<int>)
      requires hs.Length == |chunks|
      modifies this`handles, this`errorCode, this`trace, this`asked, hs
      ensures trace == old(trace) + calls
      ensures ok ==> asked == old(asked) + Creates(chunks, |chunks|)
      ensures !ok ==> at < |chunks| && asked == old(asked) + Creates(chunks, at + 1) + Releases(hs[..], at)
      ensures ok ==> |calls| == |chunks| && FirstOk(calls, |chunks|)
      ensures ok ==> errorCode == old(errorCode) && (chunks != [] ==> errorCode == 0)
      ensures ok ==> New(old(handles), hs[..]) && handles == Extend(old(handles), hs[..], chunks)
      ensures !ok ==> CallsOf(|chunks|, CreateFailed(at, status), calls) && (old(errorCode) != 0 ==> at == 0)
      ensures !ok ==> errorCode == (if status != 0 then status else old(errorCode)) && errorCode != 0
      ensures !ok && status == 0 ==> hs[at] !in old(handles)
      ensures !ok && FirstError(calls[at + 1..]) == 0 ==>
                handles == if status == 0 then old(handles)[hs[at] := chunks[at]] else old(handles)
      ensures Keeps(old(handles), handles)
    {
      hide New, Extend, FirstError, Releases, Creates;
      ok, at, status, calls := true, 0, 0, [];
      ghost var base := handles;
      NoneYet(asked, 0, chunks, chunks);
      ExtendNone(base, hs[..], chunks);
      for i := 0 to |chunks|
        invariant trace == old(trace) + calls && |calls| == i && FirstOk(calls, i)
        invariant asked == old(asked) + Creates(chunks, i)
        invariant errorCode == old(errorCode) && (i > 0 ==> errorCode == 0)
        invariant New(base, hs[..i]) && handles == Extend(base, hs[..i], chunks[..i])
      {
        ghost var before := handles;
        var created, h := MemCreate(chunks[i]);
        CreatesNext(old(asked), chunks, i);
        hs[i] := h;
        Check(created);
        calls := calls + [created];
        if errorCode != 0 {
          ok, at, status := false, i, created;
          if created == 0 {
            base := handles;
            EmptyPrefix(base, hs[..i]);
          }
          ghost var statuses := UndoCreates(chunks, hs[..], i, base);
          calls := calls + statuses;
          assert calls[at + 1..] == statuses;
          return;
        }
        SnocAt(base, hs[..i], chunks, h);
        assert hs[..i + 1] == hs[..i] + [h];
      }
      assert hs[..|chunks|] == hs[..] && chunks[..|chunks|] == chunks;
      ExtendKeeps(base, hs[..], chunks);
    }

    /** Lines 165-177: unmap the first i chunks and release every handle. */
    method UndoMaps(d: nat, chunks: seq<nat>, hs: seq<nat>, i: nat, ghost base: map<nat, nat>,
                    ghost mapped: map<nat, Mapping>)
      returns (ghost undo: seq<int>)
      requires i <= |chunks| == |hs| && New(base, hs) && handles == Extend(base, hs, chunks)
      requires New(mapped, Addresses(d, chunks)[..i])
      requires mappings == Extend(mapped, Addresses(d, chunks)[..i], Tiles(chunks, hs)[..i])
      modifies this`handles, this`mappings, this`trace, this`asked
      ensures trace == old(trace) + undo && |undo| == i + |chunks|
      ensures asked == old(asked) + (Unmaps(d, chunks, i) + Releases(hs, |chunks|))
      ensures FirstError(undo) == 0 ==> handles == base && mappings == mapped
      ensures Keeps(base, handles) && Keeps(mapped, mappings)
    {
      hide New, Extend, Addresses, FirstError, Unmaps, Releases;
      AddressesPrefix(d, chunks, i);
      var firstError, released;
      ghost var unmaps, releases;
      firstError, unmaps := UnmapAll(d, chunks[..i], mapped, Tiles(chunks, hs)[..i]);
      released, releases := ReleaseAll(hs, base, chunks);
      FirstErrorConcat(unmaps, releases);
      undo := unmaps + releases;
      UnmapsPrefix(d, chunks, i, i);
      ConcatAssoc(old(asked), Unmaps(d, chunks, i), Releases(hs, |chunks|));
    }

    /** Lines 160-179: map the chunks one after the other; on a failure unmap those mapped
        before and release every handle. */
    method MapAll(d: nat, chunks: seq<nat>, hs: array<nat>, ghost base: map<nat, nat>)
      returns (ok: bool, ghost at: nat, ghost calls: seq<int>)
      requires hs.Length == |chunks| && (chunks != [] ==> errorCode == 0)
      requires New(base, hs[..]) && handles == Extend(base, hs[..], chunks)
      modifies this`handles, this`mappings, this`errorCode, this`trace, this`asked
      ensures trace == old(trace) + calls
      ensures ok ==> asked == old(asked) + Maps(d, chunks, hs[..], |chunks|)
      ensures !ok ==> at < |chunks| && asked == old(asked) + MapUndone(d, chunks, hs[..], at)
      ensures ok ==> |calls| == |chunks| && FirstOk(calls, |chunks|)
      ensures ok ==> errorCode == old(errorCode) && handles == old(handles)
      ensures ok ==> New(old(mappings), Addresses(d, chunks)) &&
                     mappings == Extend(old(mappings), Addresses(d, chunks), Tiles(chunks, hs[..]))
      ensures !ok ==> at < |chunks| && |calls| == 2 * at + 1 + |chunks| && FirstOk(calls, at)
      ensures !ok ==> errorCode == calls[at] != 0
      ensures !ok && FirstError(calls[at + 1..]) == 0 ==> handles == base && mappings == old(mappings)
      ensures Keeps(base, handles) && Keeps(old(mappings), mappings)
    {
      hide New, Extend, Addresses, Sum, FirstError, Unmaps, Releases, Maps, MapUndone;
      NoneYet(asked, d, chunks, hs[..]);
      ok, at, calls := true, 0, [];
      ghost var mapped, addresses, tiles := mappings, Addresses(d, chunks), Tiles(chunks, hs[..]);
      ExtendNone(mapped, addresses, tiles);
      ExtendKeeps(base, hs[..], chunks);
      var allocatedSize := 0;
      for i := 0 to |chunks|
        invariant trace == old(trace) + calls && |calls| == i && FirstOk(calls, i)
        invariant asked == old(asked) + Maps(d, chunks, hs[..], i)
        invariant errorCode == old(errorCode) && handles == old(handles)
        invariant allocatedSize == Sum(chunks[..i])
        invariant New(mapped, addresses[..i]) && mappings == Extend(mapped, addresses[..i], tiles[..i])
      {
        AddressAt(d, chunks, i);
        SumStep(chunks, i);
        var status := MemMap(d + allocatedSize, chunks[i], hs[i]);
        MapsNext(old(asked), d, chunks, hs[..], i);
        Check(status);
        calls := calls + [status];
        if errorCode != 0 {
          ok, at := false, i;
          ghost var undo := UndoMaps(d, chunks, hs[..], i, base, mapped);
          calls := calls + undo;
          assert calls[at + 1..] == undo;
          UndoneAsked(old(asked), d, chunks, hs[..], i);
          return;
        }
        allocatedSize := allocatedSize + chunks[i];
        SnocAt(mapped, addresses[..i], tiles, addresses[i]);
        assert addresses[..i + 1] == addresses[..i] + [addresses[i]];
      }
      assert addresses[..|chunks|] == addresses && tiles[..|chunks|] == tiles;
      ExtendKeeps(mapped, addresses, tiles);
    }

    /** create_and_map.  It succeeds exactly when no error is set, and then every chunk is held
        and mapped.  A failure to create or map undoes everything when the undo calls succeed,
        unless an error was already pending on entry and the driver still created the first
        handle: that handle is kept.  A failure to set access undoes nothing. */
    method CreateAndMap(size: nat, d: nat, chunks: seq<nat>, hs: array<nat>)
      returns (ghost outcome: Outcome, ghost calls: seq<int>)
      requires hs.Length == |chunks|
      modifies this`handles, this`mappings, this`errorCode, this`trace, this`asked, hs
      ensures trace == old(trace) + calls && CallsOf(|chunks|, outcome, calls)
      ensures asked == old(asked) + AskedBy(outcome, size, d, chunks, hs[..])
      ensures errorCode == ErrorAfter(old(errorCode), outcome)
      ensures errorCode == 0 <==> outcome == Mapped
      ensures outcome == Mapped || outcome.AccessFailed? ==>
                Held(old(handles), old(mappings), d, chunks, hs[..], handles, mappings)
      ensures outcome.MapFailed? && Undone(|chunks|, outcome, calls) ==>
                handles == old(handles) && mappings == old(mappings)
      ensures outcome.CreateFailed? ==> mappings == old(mappings)
      ensures outcome.CreateFailed? && Undone(|chunks|, outcome, calls) ==>
                (handles == old(handles) <==> outcome.status != 0)
      ensures old(errorCode) == 0 ==> !(outcome.CreateFailed? && outcome.status == 0)
      ensures old(errorCode) != 0 && chunks != [] ==> outcome.CreateFailed? && outcome.at == 0
      ensures Keeps(old(handles), handles) && Keeps(old(mappings), mappings)
    {
      hide New, Extend, Addresses, FirstError, Creates, Maps, Releases, MapUndone, AskedBy, FirstOk;
      ghost var base := handles;
      var ok;
      ghost var at, status, maps;
      ok, at, status, calls := CreateAll(chunks, hs);
      if !ok {
        outcome := CreateFailed(at, status);
        CreateAsked(old(asked), outcome, size, d, chunks, hs[..]);
        return;
      }
      ok, at, maps := MapAll(d, chunks, hs, base);
      if !ok {
        outcome := MapFailed(at, maps[at]);
        MapAsked(old(asked), outcome, size, d, chunks, hs[..]);
        MapFailedCalls(|chunks|, at, calls, maps);
        calls := calls + maps;
        return;
      }
      var access := MemSetAccess(d, size);
      Check(access);
      MappedCalls(|chunks|, calls, maps, access);
      calls := calls + (maps + [access]);
      outcome := if errorCode == 0 then Mapped else AccessFailed(access);
      MapAsked(old(asked), outcome, size, d, chunks, hs[..]);
    }

    // ----- unmap_and_release

    /** unmap_and_release.  Every chunk is unmapped and every handle released, whatever fails.
        When every call succeeds the driver is back where it was before the chunks were
        created; otherwise the first error is remembered, and what was held before the chunks
        is still held. */
    method UnmapAndRelease(d: nat, chunks: seq<nat>, hs: seq<nat>,
                           ghost h0: map<nat, nat>, ghost m0: map<nat, Mapping>)
      returns (ghost calls: seq<int>)
      requires Held(h0, m0, d, chunks, hs, handles, mappings)
      modifies this`handles, this`mappings, this`errorCode, this`trace, this`asked
      ensures trace == old(trace) + calls && |calls| == 2 * |chunks|
      ensures asked == old(asked) + (Unmaps(d, chunks, |chunks|) + Releases(hs, |hs|))
      ensures FirstError(calls) == 0 ==> handles == h0 && mappings == m0 && errorCode == old(errorCode)
      ensures FirstError(calls) != 0 ==> errorCode == FirstError(calls)
      ensures Keeps(h0, handles) && Keeps(m0, mappings)
    {
      hide New, Extend, Addresses, FirstError;
      var firstError, releaseError;
      ghost var releases;
      firstError, calls := UnmapAll(d, chunks, m0, Tiles(chunks, hs));
      releaseError, releases := ReleaseAll(hs, h0, chunks);
      FirstErrorConcat(calls, releases);
      calls := calls + releases;
      if firstError == 0 {
        firstError := releaseError;
      }
      if firstError != 0 {
        Check(firstError);
      }
    }

    // ----- the Python entry points

    ghost function Now(): State
      reads this
    {
      State(handles, mappings)
    }

    /** python_create_and_map: reports any error and clears it.  Seen from outside it is one
        step of the reservation. */
    method PythonCreateAndMap(size: nat, d: nat, chunks: seq<nat>, hs: array<nat>)
      returns (raised: bool, ghost outcome: Outcome, ghost calls: seq<int>)
      requires hs.Length == |chunks|
      modifies this`handles, this`mappings, this`errorCode, this`trace, this`asked, hs
      ensures trace == old(trace) + calls && CallsOf(|chunks|, outcome, calls)
      ensures asked == old(asked) + AskedBy(outcome, size, d, chunks, hs[..])
      ensures errorCode == 0
      ensures !raised <==> outcome == Mapped
      ensures old(errorCode) == 0 ==>
                Step(d, chunks, old(Now()), Asleep, Now(), WokenBy(|chunks|, outcome, calls, hs[..]))
    {
      hide Held, FirstError, Keeps;
      outcome, calls := CreateAndMap(size, d, chunks, hs);
      raised := errorCode != 0;
      if raised {
        errorCode := 0;
      }
    }

    /** python_unmap_and_release: an error left pending by an earlier call is reported here,
        even when this call did all its work. */
    method PythonUnmapAndRelease(d: nat, chunks: seq<nat>, hs: seq<nat>,
                                 ghost h0: map<nat, nat>, ghost m0: map<nat, Mapping>)
      returns (raised: bool, ghost calls: seq<int>)
      requires Held(h0, m0, d, chunks, hs, handles, mappings)
      modifies this`handles, this`mappings, this`errorCode, this`trace, this`asked
      ensures trace == old(trace) + calls && |calls| == 2 * |chunks|
      ensures asked == old(asked) + (Unmaps(d, chunks, |chunks|) + Releases(hs, |hs|))
      ensures errorCode == 0
      ensures raised <==> old(errorCode) != 0 || FirstError(calls) != 0
      ensures Step(d, chunks, old(Now()), Awake(hs), Now(), if FirstError(calls) == 0 then Asleep else Broken)
    {
      hide Held, FirstError, Keeps;
      ghost var before := Now();
      calls := UnmapAndRelease(d, chunks, hs, h0, m0);
      forall h, m | Held(h, m, d, chunks, hs, before.handles, before.mappings) ensures h == h0 && m == m0 {
        HeldUnique(d, chunks, hs, before, h0, m0, h, m);
      }
      raised := errorCode != 0;
      if raised {
        errorCode := 0;
      }
    }

    // ----- my_malloc

    /** Lines 313-331: the granularity, the aligned size and the address range. */
    method Reserve(size: nat) returns (ok: bool, granularity: nat, alignedSize: nat, d: nat, ghost calls: seq<int>)
      requires size < TWO_64
      modifies this`errorCode, this`reservations, this`trace, this`asked
      ensures trace == old(trace) + calls
      ensures 0 < granularity < TWO_64 && |calls| <= 2
      ensures asked == old(asked) + [Granularity, ReserveAddress(AlignUp(size, granularity), granularity)][..|calls|]
      ensures ok ==> old(errorCode) == 0 == errorCode && calls == [0, 0] && alignedSize == AlignUp(size, granularity)
      ensures ok ==> d !in old(reservations) && reservations == old(reservations)[d := alignedSize]
      ensures !ok ==> reservations == old(reservations) && errorCode != 0
      ensures !ok ==> NotReserved(old(errorCode), errorCode, calls)
    {
      hide AlignUp;
      ok, alignedSize, d := false, 0, 0;
      var status;
      status, granularity := MemGetAllocationGranularity();
      Check(status);
      calls := [status];
      if errorCode != 0 {
        return;
      }
      alignedSize := AlignUp(size, granularity);
      status, d := MemAddressReserve(alignedSize, granularity);
      Check(status);
      calls := calls + [status];
      ok := errorCode == 0;
    }

    /** Lines 403-424: the final mapping; when it fails the reservation is given back. */
    method MapReserved(d: nat, size: nat, chunks: seq<nat>, hs: array<nat>)
      returns (ok: bool, ghost outcome: Outcome, ghost inner: seq<int>, ghost freed: int)
      requires errorCode == 0 && hs.Length == |chunks|
      modifies this, hs
      ensures CallsOf(|chunks|, outcome, inner)
      ensures ok <==> outcome == Mapped
      ensures ok ==> errorCode == 0 && trace == old(trace) + inner && reservations == old(reservations)
      ensures ok ==> asked == old(asked) + AskedBy(outcome, size, d, chunks, hs[..])
      ensures !ok ==> asked == old(asked) + AskedBy(outcome, size, d, chunks, hs[..]) + [FreeAddress(d, size)]
      ensures ok || outcome.AccessFailed? ==>
                Held(old(handles), old(mappings), d, chunks, hs[..], handles, mappings)
      ensures !ok ==> trace == old(trace) + inner + [freed]
      ensures !ok ==> errorCode == (if freed != 0 then freed else ErrorAfter(0, outcome)) && errorCode != 0
      ensures !ok ==> reservations == if freed == 0 then old(reservations) - {d} else old(reservations)
      ensures !ok && Undone(|chunks|, outcome, inner) ==> handles == old(handles) && mappings == old(mappings)
    {
      hide Held, Undone, Keeps, CallsOf;
      freed := 0;
      outcome, inner := CreateAndMap(size, d, chunks, hs);
      NotUndone(|chunks|, outcome, inner);
      ok := errorCode == 0;
      if !ok {
        var status := MemAddressFree(d, size);
        Check(status);
        freed := status;
      }
    }

    /** my_malloc.  A pending error makes it fail at once and stays pending.  On success the
        chunks of the plan are held and mapped from the reserved address.  A failure after the
        reservation but before create_and_map (no host memory, no callback, a failing callback)
        keeps the reservation; a failure to set access keeps every handle and mapping. */
    method MyMalloc(size: nat, env: Env, hostMemory: bool, callback: Callback)
      returns (ptr: Option<nat>, ghost exit: Exit, ghost chunks: seq<nat>, ghost hs: seq<nat>, ghost calls: seq<int>)
      requires size < TWO_64
      modifies this
      ensures trace == old(trace) + calls
      ensures ptr.Some? <==> exit.Done?
      ensures old(errorCode) != 0 ==> exit == NotStarted
      ensures exit == NotStarted ==> reservations == old(reservations) && errorCode != 0
      ensures exit == NotStarted ==> NotReserved(old(errorCode), errorCode, calls)
      ensures exit == NotStarted || exit.Abandoned? ==> handles == old(handles) && mappings == old(mappings)
      ensures exit.Abandoned? ==> calls == [0, 0] && Abandons(exit.granularity, env, hostMemory, callback, chunks)
      ensures exit != NotStarted ==>
                |hs| == |chunks| && (exit.Failed? ==> CallsOf(|chunks|, exit.outcome, exit.inner)) &&
                asked == old(asked) + [Granularity, ReserveAddress(exit.size, exit.granularity)] +
                           AskedThen(exit, chunks, hs)
      ensures exit.Abandoned? || exit.Done? ==> exit.d !in old(reservations)
      ensures exit.Abandoned? || exit.Done? ==> reservations == old(reservations)[exit.d := exit.size]
      ensures exit.Done? ==> errorCode == 0 && ptr == Some(exit.d)
      ensures exit.Done? ==> |calls| == 2 * |chunks| + 3 && FirstOk(calls, 2 * |chunks| + 3)
      ensures exit.Done? ==> Held(old(handles), old(mappings), exit.d, chunks, hs, handles, mappings)
      ensures exit.Done? ==> 0 < exit.granularity < TWO_64 && callback == Succeeds
      ensures exit.Done? && FitsIn64(size, exit.granularity, GetMemcreateChunkSize(env)) ==>
                GoodPlan(size, exit.granularity, exit.chunk, exit.size, chunks)
      ensures exit.Failed? ==>
                CallsOf(|chunks|, exit.outcome, exit.inner) && calls == [0, 0] + exit.inner + [exit.freed]
      ensures exit.Failed? ==> errorCode == if exit.freed != 0 then exit.freed else ErrorAfter(0, exit.outcome)
      ensures exit.Failed? ==> errorCode != 0 && (exit.freed == 0 ==> reservations == old(reservations))
      ensures exit.Failed? && Undone(|chunks|, exit.outcome, exit.inner) ==>
                handles == old(handles) && mappings == old(mappings)
      ensures exit.Failed? && exit.outcome.AccessFailed? ==>
                Held(old(handles), old(mappings), exit.d, chunks, hs, handles, mappings)
    {
      hide Held, AlignUp, GoodPlan, FitsIn64, Undone, Keeps, CallsOf, FirstOk, NotReserved, ErrorAfter, AskedBy;
      ptr, exit, chunks, hs, calls := None, NotStarted, [], [], [];
      var ok, granularity, alignedSize, d;
      ok, granularity, alignedSize, d, calls := Reserve(size);
      if !ok {
        return;
      }
      exit := Abandoned(d, alignedSize, granularity);
      assert [Granularity, ReserveAddress(alignedSize, granularity)][..2] ==
             [Granularity, ReserveAddress(alignedSize, granularity)];
      var plan := PlanChunks(size, granularity, env);
      if plan.DivisionByZero? {
        return;
      }
      chunks, hs := plan.chunks, plan.chunks;
      if (plan.chunks != [] && !hostMemory) || callback != Succeeds {
        return;
      }
      var pMemHandle := new nat[|plan.chunks|];
      ghost var outcome, inner, freed;
      ok, outcome, inner, freed := MapReserved(d, alignedSize, plan.chunks, pMemHandle);
      hs := pMemHandle[..];
      if !ok {
        calls := calls + inner + [freed];
        exit := Failed(d, alignedSize, granularity, outcome, inner, freed);
        return;
      }
      MallocCalls(|plan.chunks|, inner);
      calls := calls + inner;
      ptr, exit := Some(d), Done(d, alignedSize, granularity, plan.alignedChunk);
    }

    // ----- my_free

    /** my_free on an allocation that sits on top of h0 and m0.  It undoes my_malloc when
        every call succeeds, and then the caller's size was the reserved, aligned one: the driver
        frees an address range only under the size it was reserved with. */
    method MyFree(size: nat, callbackOk: bool, d: nat, chunks: seq<nat>, hs: seq<nat>,
                  ghost h0: map<nat, nat>, ghost m0: map<nat, Mapping>)
      returns (ghost calls: seq<int>)
      requires Held(h0, m0, d, chunks, hs, handles, mappings)
      modifies this
      ensures trace == old(trace) + calls && |calls| == if callbackOk then 2 * |chunks| + 1 else 0
      ensures asked == old(asked) + if callbackOk
                then Unmaps(d, chunks, |chunks|) + Releases(hs, |hs|) + [FreeAddress(d, size)] else []
      ensures !callbackOk ==> Now() == old(Now()) && reservations == old(reservations) && errorCode == old(errorCode)
      ensures callbackOk && FirstError(calls) == 0 ==>
                && Now() == State(h0, m0) && errorCode == old(errorCode)
                && d in old(reservations) && old(reservations)[d] == size
                && reservations == old(reservations) - {d}
      ensures callbackOk && FirstError(calls) != 0 ==>
                errorCode == if calls[2 * |chunks|] != 0 then calls[2 * |chunks|] else FirstError(calls)
      ensures Keeps(h0, handles) && Keeps(m0, mappings)
      ensures forall r :: r in old(reservations) && r != d ==>
                r in reservations && reservations[r] == old(reservations)[r]
    {
      hide Held, FirstError, Keeps, Unmaps, Releases;
      calls := [];
      HeldKeeps(h0, m0, d, chunks, hs, handles, mappings);
      if !callbackOk {
        return;
      }
      calls := UnmapAndRelease(d, chunks, hs, h0, m0);
      var freed := MemAddressFree(d, size);
      Check(freed);
      FirstErrorSnoc(calls, freed);
      calls := calls + [freed];
    }
  }

  // ----- how calls end

  datatype Outcome =
    | Mapped
    | CreateFailed(at: nat, status: int)
    | MapFailed(at: nat, status: int)
    | AccessFailed(status: int)

  /** The first k calls of a series succeeded. */
  ghost predicate FirstOk(calls: seq<int>, k: nat) {
    k <= |calls| && forall i :: 0 <= i < k ==> calls[i] == 0
  }

  /** The calls of create_and_map on n chunks: all succeed up to the failing one; after it come
      the undo calls, one per handle created before, or one per chunk mapped before and one
      per handle. */
  ghost predicate CallsOf(n: nat, outcome: Outcome, calls: seq<int>) {
    match outcome
    case Mapped => |calls| == 2 * n + 1 && FirstOk(calls, 2 * n + 1)
    case AccessFailed(status) => |calls| == 2 * n + 1 && FirstOk(calls, 2 * n) && calls[2 * n] == status
    case CreateFailed(at, status) => at < n && |calls| == 2 * at + 1 && FirstOk(calls, at) && calls[at] == status
    case MapFailed(at, status) =>
      at < n && |calls| == 2 * n + 2 * at + 1 && FirstOk(calls, n + at) && calls[n + at] == status != 0
  }

  /** Every undo call succeeded. */
  ghost predicate Undone(n: nat, outcome: Outcome, calls: seq<int>)
    requires CallsOf(n, outcome, calls)
  {
    match outcome
    case CreateFailed(at, _) => FirstError(calls[at + 1..]) == 0
    case MapFailed(at, _) => FirstError(calls[n + at + 1..]) == 0
    case _ => false
  }

  ghost function ErrorAfter(before: int, outcome: Outcome): int {
    if outcome == Mapped then 0 else if outcome.status != 0 then outcome.status else before
  }

  /** The calls of a failed map follow those of the creates. */
  lemma MapFailedCalls(n: nat, at: nat, creates: seq<int>, maps: seq<int>)
    requires |creates| == n && FirstOk(creates, n) && at < n && |maps| == 2 * at + 1 + n && FirstOk(maps, at)
    requires maps[at] != 0
    ensures CallsOf(n, MapFailed(at, maps[at]), creates + maps)
    ensures Undone(n, MapFailed(at, maps[at]), creates + maps) <==> FirstError(maps[at + 1..]) == 0
  {
    hide FirstError;
    assert (creates + maps)[n + at + 1..] == maps[at + 1..];
  }

  lemma MappedCalls(n: nat, creates: seq<int>, maps: seq<int>, access: int)
    requires |creates| == |maps| == n && FirstOk(creates, n) && FirstOk(maps, n)
    ensures CallsOf(n, AccessFailed(access), creates + (maps + [access]))
    ensures access == 0 ==> CallsOf(n, Mapped, creates + (maps + [access]))
  {
  }

  lemma MallocCalls(n: nat, inner: seq<int>)
    requires CallsOf(n, Mapped, inner)
    ensures |[0, 0] + inner| == 2 * n + 3 && FirstOk([0, 0] + inner, 2 * n + 3)
  {
  }

  lemma NotUndone(n: nat, outcome: Outcome, calls: seq<int>)
    requires CallsOf(n, outcome, calls)
    ensures Undone(n, outcome, calls) ==> outcome.CreateFailed? || outcome.MapFailed?
  {
  }

  datatype Callback = Missing | Fails | Succeeds

  /** How my_malloc ended. */
  datatype Exit =
    | NotStarted                                        // no granularity, no address range, or an error already pending
    | Abandoned(d: nat, size: nat, granularity: nat)    // returned, or divided by zero, between reserving and mapping
    | Failed(d: nat, size: nat, granularity: nat, outcome: Outcome, inner: seq<int>, freed: int)
    | Done(d: nat, size: nat, granularity: nat, chunk: nat)

  /** What my_malloc asks of the driver once the address range is reserved. */
  ghost function AskedThen(exit: Exit, chunks: seq<nat>, hs: seq<nat>): seq<Call>
    requires |hs| == |chunks| && (exit.Failed? ==> CallsOf(|chunks|, exit.outcome, exit.inner))
  {
    match exit
    case Failed(d, size, _, outcome, _, _) => AskedBy(outcome, size, d, chunks, hs) + [FreeAddress(d, size)]
    case Done(d, size, _, _) => AskedBy(Mapped, size, d, chunks, hs)
    case _ => []
  }

  /** The granularity or the address range was refused, or an error was pending. */
  ghost predicate NotReserved(before: int, after: int, calls: seq<int>) {
    || (|calls| == 1 && after == if calls[0] != 0 then calls[0] else before)
    || (|calls| == 2 && calls[0] == 0 && after == calls[1])
  }

  /** Why my_malloc gives up between reserving and mapping. */
  ghost predicate Abandons(granularity: nat, env: Env, hostMemory: bool, callback: Callback, chunks: seq<nat>) {
    || GetMemcreateChunkSize(env) + granularity - 1 >= TWO_64
    || (chunks != [] && !hostMemory)
    || callback != Succeeds
  }

  /** The driver holds, on top of h0 and m0, one handle per chunk, mapped in order from d. */
  ghost predicate Held(h0: map<nat, nat>, m0: map<nat, Mapping>, d: nat, chunks: seq<nat>, hs: seq<nat>,
                       handles: map<nat, nat>, mappings: map<nat, Mapping>)
  {
    && |hs| == |chunks|
    && New(h0, hs) && handles == Extend(h0, hs, chunks)
    && New(m0, Addresses(d, chunks)) && mappings == Extend(m0, Addresses(d, chunks), Tiles(chunks, hs))
  }

  lemma HeldKeeps(h0: map<nat, nat>, m0: map<nat, Mapping>, d: nat, chunks: seq<nat>, hs: seq<nat>,
                  handles: map<nat, nat>, mappings: map<nat, Mapping>)
    requires Held(h0, m0, d, chunks, hs, handles, mappings)
    ensures Keeps(h0, handles) && Keeps(m0, mappings)
  {
    ExtendKeeps(h0, hs, chunks);
    ExtendKeeps(m0, Addresses(d, chunks), Tiles(chunks, hs));
  }

  lemma {:induction false} FirstErrorConcat(a: seq<int>, b: seq<int>)
    ensures FirstError(a + b) == if FirstError(a) != 0 then FirstError(a) else FirstError(b)
  {
    if b == [] {
      assert a + b == a;
    } else {
      var init := b[..|b| - 1];
      assert (a + b)[..|a + b| - 1] == a + init;
      FirstErrorConcat(a, init);
    }
  }

  // ----- whole runs

  datatype State = State(handles: map<nat, nat>, mappings: map<nat, Mapping>)

  /** Broken: some undo or release call failed, or access could not be set. */
  datatype Phase = Asleep | Awake(hs: seq<nat>) | Broken

  /** The phase in which python_create_and_map leaves a sleeping reservation. */
  ghost function WokenBy(n: nat, outcome: Outcome, calls: seq<int>, hs: seq<nat>): Phase
    requires CallsOf(n, outcome, calls)
  {
    if outcome == Mapped then Awake(hs)
    else if Undone(n, outcome, calls) then Asleep
    else Broken
  }

  /** One call on a reservation: a wake that succeeds or is undone, a sleep, or a call that
      leaves the reservation broken. */
  ghost predicate Step(d: nat, chunks: seq<nat>, s: State, p: Phase, s': State, p': Phase) {
    match (p, p')
    case (Asleep, Awake(hs)) => Held(s.handles, s.mappings, d, chunks, hs, s'.handles, s'.mappings)
    case (Asleep, Asleep) => s' == s
    case (Asleep, Broken) => Keeps(s.handles, s'.handles) && Keeps(s.mappings, s'.mappings)
    case (Awake(hs), Asleep) =>
      forall h0, m0 :: Held(h0, m0, d, chunks, hs, s.handles, s.mappings) ==> s' == State(h0, m0)
    case (Awake(hs), Broken) =>
      forall h0, m0 :: Held(h0, m0, d, chunks, hs, s.handles, s.mappings) ==>
        Keeps(h0, s'.handles) && Keeps(m0, s'.mappings)
    case _ => false
  }

  ghost predicate Run(d: nat, chunks: seq<nat>, states: seq<State>, phases: seq<Phase>) {
    && |states| == |phases| > 0
    && phases[0] == Asleep
    && forall i :: 0 <= i < |states| - 1 ==> Step(d, chunks, states[i], phases[i], states[i + 1], phases[i + 1])
  }

  /** Over every run: while asleep the driver holds exactly what it held at the beginning, while
      awake exactly that and the tiles of the reservation, and even when broken all that it
      held at the beginning. */
  lemma {:induction false} RunKeepsReservation(d: nat, chunks: seq<nat>, states: seq<State>, phases: seq<Phase>, i: nat)
    requires Run(d, chunks, states, phases) && i < |states|
    ensures phases[i] == Asleep ==> states[i] == states[0]
    ensures phases[i].Awake? ==> Held(states[0].handles, states[0].mappings, d, chunks, phases[i].hs,
                                      states[i].handles, states[i].mappings)
    ensures phases[i] == Broken ==>
              Keeps(states[0].handles, states[i].handles) && Keeps(states[0].mappings, states[i].mappings)
  {
    hide Held, Keeps;
    if i > 0 {
      RunKeepsReservation(d, chunks, states, phases, i - 1);
      assert Step(d, chunks, states[i - 1], phases[i - 1], states[i - 1 + 1], phases[i - 1 + 1]);
    }
  }

  /** What a reservation was put on top of is determined by what is held. */
  lemma HeldUnique(d: nat, chunks: seq<nat>, hs: seq<nat>, s: State,
                   h0: map<nat, nat>, m0: map<nat, Mapping>, h: map<nat, nat>, m: map<nat, Mapping>)
    requires Held(h0, m0, d, chunks, hs, s.handles, s.mappings)
    requires Held(h, m, d, chunks, hs, s.handles, s.mappings)
    ensures h == h0 && m == m0
  {
    ExtendInjective(h0, h, hs, chunks);
    ExtendInjective(m0, m, Addresses(d, chunks), Tiles(chunks, hs));
  }

  lemma ExtendInjective<K, V>(a: map<K, V>, b: map<K, V>, keys: seq<K>, vals: seq<V>)
    requires |keys| == |vals| && New(a, keys) && New(b, keys)
    requires Extend(a, keys, vals) == Extend(b, keys, vals)
    ensures a == b
  {
    ExtendKeys(a, keys, vals);
    ExtendKeys(b, keys, vals);
    assert forall k :: k in a ==> k !in keys;
    assert forall k :: k in b ==> k !in keys;
  }

  lemma EmptyPrefix<V>(base: map<nat, V>, keys: seq<nat>)
    ensures keys == [] ==> New(base, keys) && Extend(base, keys, []) == base
  {
  }

  lemma SnocAt<K, V>(base: map<K, V>, keys: seq<K>, vals: seq<V>, k: K)
    requires |keys| < |vals| && New(base, keys) && k !in Extend(base, keys, vals[..|keys|])
    ensures New(base, keys + [k])
    ensures Extend(base, keys + [k], vals[..|keys| + 1]) == Extend(base, keys, vals[..|keys|])[k := vals[|keys|]]
  {
    NewSnoc(base, keys, vals[..|keys|], k);
    ExtendSnoc(base, keys, vals[..|keys|], k, vals[|keys|]);
    assert vals[..|keys| + 1] == vals[..|keys|] + [vals[|keys|]];
  }

  lemma {:induction false} AddressesPrefix(d: nat, chunks: seq<nat>, i: nat)
    requires i <= |chunks|
    ensures Addresses(d, chunks[..i]) == Addresses(d, chunks)[..i]
    decreases chunks
  {
    if i > 0 {
      AddressesPrefix(d + chunks[0], chunks[1..], i - 1);
      assert chunks[..i][1..] == chunks[1..][..i - 1];
      assert chunks[..i][0] == chunks[0];
    }
  }

  lemma ExtendNone<K, V>(base: map<K, V>, keys: seq<K>, vals: seq<V>)
    requires |keys| == |vals|
    ensures keys[0..] == keys && vals[0..] == vals
    ensures Extend(base, keys[|keys|..], vals[|keys|..]) == base
    ensures Extend(base, keys[..0], vals[..0]) == base && New(base, keys[..0])
    ensures FirstError([]) == 0 && Sum([]) == 0
  {
  }

  lemma SumStep(chunks: seq<nat>, j: nat)
    requires j < |chunks|
    ensures Sum(chunks[..j + 1]) == Sum(chunks[..j]) + chunks[j]
  {
    assert chunks[..j + 1] == chunks[..j] + [chunks[j]];
    SumAppend(chunks[..j], chunks[j]);
  }

  lemma DropAt<K, V>(base: map<K, V>, keys: seq<K>, vals: seq<V>, j: nat)
    requires j < |keys| == |vals| && New(base, keys[j..])
    ensures keys[j] !in base && New(base, keys[j + 1..])
    ensures Extend(base, keys[j..], vals[j..]) - {keys[j]} == Extend(base, keys[j + 1..], vals[j + 1..])
  {
    ExtendDropFirst(base, keys[j..], vals[j..]);
    assert keys[j..][1..] == keys[j + 1..] && vals[j..][1..] == vals[j + 1..];
    assert keys[j..][0] == keys[j];
  }
}
