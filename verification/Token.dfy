/** Transfers to or from many addresses (crates/chain/src/token.rs): address
    chunks crossed with block ranges that are halved on any refusal. */
module Token {
  import opened Common
  import opened Ledger

  datatype Side = Incoming | Outgoing

  /** A Transfer log as returned; the optional parts may be missing. Addresses
      are in their canonical form. */
  datatype RawTransfer = RawTransfer(
    from: string, to: string, amount: nat, block: Option<nat>, txHash: Option<string>, logIndex: Option<nat>, decodes: bool)

  datatype TransferLog = TransferLog(from: string, to: string, amount: nat, block: nat, txHash: string, logIndex: nat)

  /** What the n-th query for these addresses over lo..hi gets. */
  type TransferProvider = (nat, set<string>, nat, nat) -> Reply<RawTransfer>

  function SideOf(l: RawTransfer, side: Side): string
  {
    match side case Incoming => l.to case Outgoing => l.from
  }

  function AddressOf(t: TransferLog, side: Side): string
  {
    match side case Incoming => t.to case Outgoing => t.from
  }

  /** The logs with one of these addresses on the given side. */
  function Matching(logs: seq<RawTransfer>, side: Side, topics: set<string>): seq<RawTransfer>
  {
    if logs == [] then []
    else if SideOf(logs[0], side) in topics then [logs[0]] + Matching(logs[1..], side, topics)
    else Matching(logs[1..], side, topics)
  }

  function Filtered(blocks: nat -> seq<RawTransfer>, side: Side, topics: set<string>): nat -> seq<RawTransfer>
  {
    (b: nat) => Matching(blocks(b), side, topics)
  }

  /** A filter without addresses matches every transfer. */
  function Served(blocks: nat -> seq<RawTransfer>, side: Side, topics: set<string>): nat -> seq<RawTransfer>
  {
    if topics == {} then blocks else Filtered(blocks, side, topics)
  }

  ghost predicate HonestTransfers(blocks: nat -> seq<RawTransfer>, side: Side, p: TransferProvider)
  {
    forall n: nat, topics: set<string>, lo: nat, hi: nat :: p(n, topics, lo, hi).Logs? ==>
      p(n, topics, lo, hi).logs == LogsIn(Served(blocks, side, topics), lo, hi)
  }

  /** The transfer a log cites, when it decodes and is not pending. */
  function Cited(l: RawTransfer): seq<TransferLog>
  {
    if l.decodes && l.block.Some? && l.txHash.Some? && l.logIndex.Some? then
      [TransferLog(l.from, l.to, l.amount, l.block.value, l.txHash.value, l.logIndex.value)]
    else []
  }

  function Decoded(logs: seq<RawTransfer>): seq<TransferLog>
  {
    if logs == [] then [] else Cited(logs[0]) + Decoded(logs[1..])
  }

  lemma {:induction false} DecodedConcat(a: seq<RawTransfer>, b: seq<RawTransfer>)
    ensures Decoded(a + b) == Decoded(a) + Decoded(b)
  {
    if a == [] {
      assert a + b == b;
    } else {
      assert (a + b)[1..] == a[1..] + b;
      DecodedConcat(a[1..], b);
    }
  }

  // ---- One chunk of addresses ---------------------------------------------------

  /** All transfers of one chunk over from..to: the whole or an error, the
      error only when a single block is refused. */
  method ChunkTransfers(p: TransferProvider, first: nat, topics: set<string>, side: Side, from: nat, to: nat,
                        ghost blocks: nat -> seq<RawTransfer>)
    returns (r: Result<seq<TransferLog>, string>, calls: nat, ghost accepted: seq<Span>)
    requires HonestTransfers(blocks, side, p)
    ensures r.Ok? ==> r.value == Decoded(LogsIn(Served(blocks, side, topics), from, to))
    ensures r.Ok? && from <= to ==> Tiles(accepted, from, to) && calls == 2 * |accepted| - 1
    ensures r.Err? ==> exists n: nat, lo: nat, hi: nat :: p(n, topics, lo, hi) == Failed(r.error) && lo >= hi
  {
    var out := [];
    var spans := [Span(from, to)];
    calls, accepted := 0, [];
    ghost var view, next := Served(blocks, side, topics), from;
    while |spans| > 0
      invariant Scanning(from, to, spans, next, accepted, calls)
      invariant out + Decoded(LogsIn(view, next, to)) == Decoded(LogsIn(view, from, to))
      decreases Work(spans)
    {
      var Span(lo, hi) := Top(spans);
      ScanAccept(view, from, to, spans, next, accepted, calls);
      match p(first + calls, topics, lo, hi) {
        case Logs(logs) =>
          ghost var after := NextAfter(from, to, Span(lo, hi));
          DecodedConcat(logs, LogsIn(view, after, to));
          Regroup(out, Decoded(logs), Decoded(LogsIn(view, after, to)));
          spans, accepted, next := Popped(spans), accepted + [Span(lo, hi)], after;
          out := out + Decoded(logs);
        case Failed(e) =>
          if lo >= hi { return Err(e), calls + 1, accepted; }
          var mid := Midpoint(lo, hi);
          ScanSplit(from, to, spans, next, accepted, calls, mid);
          spans := Popped(spans) + [Span(mid + 1, hi)] + [Span(lo, mid)];
      }
      calls := calls + 1;
    }
    r := Ok(out);
  }

  // ---- All chunks ------------------------------------------------------------------

  /** `targets.chunks(size)`. */
  function Chunks(targets: seq<string>, size: nat): seq<seq<string>>
    requires size >= 1
  {
    if |targets| <= size then (if targets == [] then [] else [targets])
    else [targets[..size]] + Chunks(targets[size..], size)
  }

  /** The addresses of a chunk that parse. */
  function Topics(chunk: seq<string>, parse: string -> Option<string>): set<string>
  {
    set a | a in chunk && parse(a).Some? :: parse(a).value
  }

  /** What each chunk's own whole-range query would return, in turn. */
  function PerChunk(chunks: seq<seq<string>>, parse: string -> Option<string>, side: Side, logs: seq<RawTransfer>): seq<TransferLog>
  {
    if chunks == [] then []
    else PerChunk(chunks[..|chunks| - 1], parse, side, logs) + Decoded(Matching(logs, side, Topics(chunks[|chunks| - 1], parse)))
  }

  lemma {:induction false} MatchingConcat(a: seq<RawTransfer>, b: seq<RawTransfer>, side: Side, topics: set<string>)
    ensures Matching(a + b, side, topics) == Matching(a, side, topics) + Matching(b, side, topics)
  {
    if a == [] {
      assert a + b == b;
    } else {
      assert (a + b)[1..] == a[1..] + b && (a + b)[0] == a[0];
      MatchingConcat(a[1..], b, side, topics);
      var x, y := Matching(a[1..], side, topics), Matching(b, side, topics);
      assert [a[0]] + x + y == [a[0]] + (x + y);
    }
  }

  lemma {:induction false} FilteredRange(blocks: nat -> seq<RawTransfer>, side: Side, topics: set<string>, lo: nat, hi: nat)
    ensures LogsIn(Filtered(blocks, side, topics), lo, hi) == Matching(LogsIn(blocks, lo, hi), side, topics)
    decreases hi + 1 - lo
  {
    if lo <= hi {
      FilteredRange(blocks, side, topics, lo + 1, hi);
      MatchingConcat(blocks(lo), LogsIn(blocks, lo + 1, hi), side, topics);
    }
  }

  lemma {:induction false} MatchingNothing(logs: seq<RawTransfer>, side: Side)
    ensures Matching(logs, side, {}) == []
  {
    if logs != [] { MatchingNothing(logs[1..], side); }
  }

  /** Every transfer on `side` of any target, chunk by chunk. */
  method TransfersBatched(p: TransferProvider, targets: seq<string>, parse: string -> Option<string>, side: Side,
                          from: nat, to: nat, targetsPerQuery: nat, ghost blocks: nat -> seq<RawTransfer>)
    returns (r: Result<seq<TransferLog>, string>)
    requires HonestTransfers(blocks, side, p)
    ensures r.Ok? ==> r.value == PerChunk(Chunks(targets, Max(targetsPerQuery, 1)), parse, side, LogsIn(blocks, from, to))
    ensures r.Err? ==> exists n: nat, topics, lo: nat, hi: nat :: p(n, topics, lo, hi) == Failed(r.error) && lo >= hi
  {
    var out := [];
    var chunks := Chunks(targets, Max(targetsPerQuery, 1));
    var calls := 0;
    ghost var logs := LogsIn(blocks, from, to);
    for i := 0 to |chunks|
      invariant out == PerChunk(chunks[..i], parse, side, logs)
    {
      assert chunks[..i + 1][..i] == chunks[..i];
      var topics := Topics(chunks[i], parse);
      if topics == {} {
        MatchingNothing(logs, side);
        continue;
      }
      var part, used, _ := ChunkTransfers(p, calls, topics, side, from, to, blocks);
      if part.Err? { return Err(part.error); }
      FilteredRange(blocks, side, topics, from, to);
      calls := calls + used;
      out := out + part.value;
    }
    assert chunks[..|chunks|] == chunks;
    r := Ok(out);
  }

  // ---- Each transfer how often? --------------------------------------------------------

  /** How many chunks name an address. */
  function ChunksNaming(chunks: seq<seq<string>>, parse: string -> Option<string>, address: string): nat
  {
    if chunks == [] then 0
    else ChunksNaming(chunks[..|chunks| - 1], parse, address) + if address in Topics(chunks[|chunks| - 1], parse) then 1 else 0
  }

  /** One log's share of the decoded transfers. */
  lemma DecodedFirst(l: RawTransfer, rest: seq<RawTransfer>, t: TransferLog)
    ensures multiset(Decoded([l] + rest))[t] == multiset(Cited(l))[t] + multiset(Decoded(rest))[t]
    ensures multiset(Cited(l))[t] > 0 ==> forall side :: AddressOf(t, side) == SideOf(l, side)
  {
    assert ([l] + rest)[1..] == rest;
  }

  lemma {:induction false} MatchingCount(logs: seq<RawTransfer>, side: Side, topics: set<string>, t: TransferLog)
    ensures multiset(Decoded(Matching(logs, side, topics)))[t]
         == if AddressOf(t, side) in topics then multiset(Decoded(logs))[t] else 0
  {
    if logs != [] {
      MatchingCount(logs[1..], side, topics, t);
      assert logs == [logs[0]] + logs[1..];
      DecodedFirst(logs[0], logs[1..], t);
      DecodedFirst(logs[0], Matching(logs[1..], side, topics), t);
    }
  }

  lemma LastChunkCount(chunks: seq<seq<string>>, parse: string -> Option<string>, side: Side, logs: seq<RawTransfer>, t: TransferLog)
    requires chunks != []
    ensures multiset(PerChunk(chunks, parse, side, logs))[t]
         == multiset(PerChunk(chunks[..|chunks| - 1], parse, side, logs))[t]
          + if AddressOf(t, side) in Topics(chunks[|chunks| - 1], parse) then multiset(Decoded(logs))[t] else 0
  {
    MatchingCount(logs, side, Topics(chunks[|chunks| - 1], parse), t);
  }

  /** c copies for each chunk that names the address. */
  function Copies(chunks: seq<seq<string>>, parse: string -> Option<string>, address: string, c: nat): nat
  {
    if chunks == [] then 0
    else Copies(chunks[..|chunks| - 1], parse, address, c) + if address in Topics(chunks[|chunks| - 1], parse) then c else 0
  }

  lemma {:induction false} CopiesMultiply(chunks: seq<seq<string>>, parse: string -> Option<string>, address: string, c: nat)
    ensures Copies(chunks, parse, address, c) == ChunksNaming(chunks, parse, address) * c
  {
    if chunks != [] {
      CopiesMultiply(chunks[..|chunks| - 1], parse, address, c);
      var n := ChunksNaming(chunks[..|chunks| - 1], parse, address);
      assert (n + 1) * c == n * c + c;
    }
  }

  lemma {:induction false} PerChunkCopies(chunks: seq<seq<string>>, parse: string -> Option<string>, side: Side,
                                          logs: seq<RawTransfer>, t: TransferLog)
    ensures multiset(PerChunk(chunks, parse, side, logs))[t] == Copies(chunks, parse, AddressOf(t, side), multiset(Decoded(logs))[t])
  {
    if chunks != [] {
      PerChunkCopies(chunks[..|chunks| - 1], parse, side, logs, t);
      LastChunkCount(chunks, parse, side, logs, t);
    }
  }

  /** A transfer is returned once per chunk that names its address. */
  lemma PerChunkCount(chunks: seq<seq<string>>, parse: string -> Option<string>, side: Side,
                      logs: seq<RawTransfer>, t: TransferLog)
    ensures multiset(PerChunk(chunks, parse, side, logs))[t]
         == ChunksNaming(chunks, parse, AddressOf(t, side)) * multiset(Decoded(logs))[t]
  {
    PerChunkCopies(chunks, parse, side, logs, t);
    CopiesMultiply(chunks, parse, AddressOf(t, side), multiset(Decoded(logs))[t]);
  }

  function AllTopics(chunks: seq<seq<string>>, parse: string -> Option<string>): set<string>
  {
    set c, a | c in chunks && a in Topics(c, parse) :: a
  }

  lemma {:induction false} NamedSomewhere(chunks: seq<seq<string>>, parse: string -> Option<string>, address: string)
    ensures ChunksNaming(chunks, parse, address) > 0 <==> address in AllTopics(chunks, parse)
  {
    if chunks != [] {
      NamedSomewhere(chunks[..|chunks| - 1], parse, address);
      assert chunks == chunks[..|chunks| - 1] + [chunks[|chunks| - 1]];
    }
  }

  lemma CountsAgreeIff(n: nat, c: nat)
    ensures n * c == (if n > 0 then c else 0) <==> (c > 0 ==> n <= 1)
  {
    if n > 1 { assert n * c == (n - 2) * c + 2 * c; }
  }

  lemma TransferAgreesIff(chunks: seq<seq<string>>, parse: string -> Option<string>, side: Side, logs: seq<RawTransfer>, t: TransferLog)
    ensures multiset(PerChunk(chunks, parse, side, logs))[t] == multiset(Decoded(Matching(logs, side, AllTopics(chunks, parse))))[t]
      <==> (t in Decoded(logs) ==> ChunksNaming(chunks, parse, AddressOf(t, side)) <= 1)
  {
    PerChunkCount(chunks, parse, side, logs, t);
    MatchingCount(logs, side, AllTopics(chunks, parse), t);
    NamedSomewhere(chunks, parse, AddressOf(t, side));
    CountsAgreeIff(ChunksNaming(chunks, parse, AddressOf(t, side)), multiset(Decoded(logs))[t]);
    assert t in Decoded(logs) <==> multiset(Decoded(logs))[t] > 0;
  }

  /** On given logs, batching returns what one query for all addresses would, each
      transfer as often, exactly when no transfer's address is in two chunks. */
  lemma BatchingAgreesIff(chunks: seq<seq<string>>, parse: string -> Option<string>, side: Side, logs: seq<RawTransfer>)
    ensures multiset(PerChunk(chunks, parse, side, logs)) == multiset(Decoded(Matching(logs, side, AllTopics(chunks, parse))))
      <==> forall t :: t in Decoded(logs) ==> ChunksNaming(chunks, parse, AddressOf(t, side)) <= 1
  {
    var batched := multiset(PerChunk(chunks, parse, side, logs));
    var single := multiset(Decoded(Matching(logs, side, AllTopics(chunks, parse))));
    forall t ensures batched[t] == single[t] <==> (t in Decoded(logs) ==> ChunksNaming(chunks, parse, AddressOf(t, side)) <= 1) {
      TransferAgreesIff(chunks, parse, side, logs, t);
    }
  }

  /** Whatever the chain holds, batching returns what one query would. */
  ghost predicate BatchingExact(chunks: seq<seq<string>>, parse: string -> Option<string>, side: Side)
  {
    forall logs :: multiset(PerChunk(chunks, parse, side, logs)) == multiset(Decoded(Matching(logs, side, AllTopics(chunks, parse))))
  }

  /** A single transfer from an address to itself: returned twice if two chunks
      name the address. */
  lemma SelfTransfer(a: string, side: Side) returns (logs: seq<RawTransfer>, t: TransferLog)
    ensures t in Decoded(logs) && AddressOf(t, side) == a
  {
    logs := [RawTransfer(a, a, 0, Some(0), Some(""), Some(0), true)];
    t := TransferLog(a, a, 0, 0, "", 0);
    assert Decoded(logs) == Cited(logs[0]) + Decoded([]);
  }

  /** Batching is exact for every chain exactly when no address is in two chunks. */
  lemma ChunksExactIff(chunks: seq<seq<string>>, parse: string -> Option<string>, side: Side)
    ensures BatchingExact(chunks, parse, side) <==> forall a: string :: ChunksNaming(chunks, parse, a) <= 1
  {
    forall logs {
      BatchingAgreesIff(chunks, parse, side, logs);
    }
    if a: string :| ChunksNaming(chunks, parse, a) > 1 {
      var logs, t := SelfTransfer(a, side);
      BatchingAgreesIff(chunks, parse, side, logs);
    }
  }

  /** Which chunk the i-th target falls in. */
  function ChunkIndex(i: nat, size: nat): nat
    requires size >= 1
  {
    if i < size then 0 else 1 + ChunkIndex(i - size, size)
  }

  /** The i-th target stands for this address. */
  predicate NamedAt(targets: seq<string>, parse: string -> Option<string>, address: string, i: nat)
  {
    i < |targets| && parse(targets[i]) == Some(address)
  }

  ghost predicate NamedIn(targets: seq<string>, parse: string -> Option<string>, address: string)
  {
    exists i :: NamedAt(targets, parse, address, i)
  }

  /** Targets that stand for one address are all in one chunk. */
  ghost predicate OneChunkEach(targets: seq<string>, size: nat, parse: string -> Option<string>, address: string)
    requires size >= 1
  {
    forall i, j :: NamedAt(targets, parse, address, i) && NamedAt(targets, parse, address, j) ==> ChunkIndex(i, size) == ChunkIndex(j, size)
  }

  lemma TopicsName(chunk: seq<string>, parse: string -> Option<string>, address: string)
    ensures address in Topics(chunk, parse) <==> NamedIn(chunk, parse, address)
  {
    if i: nat :| NamedAt(chunk, parse, address, i) { assert chunk[i] in chunk; }
    if address in Topics(chunk, parse) {
      var i: nat :| i < |chunk| && parse(chunk[i]) == Some(address);
      assert NamedAt(chunk, parse, address, i);
    }
  }

  /** A target is in the first chunk, or in the rest one chunk later. */
  lemma FirstOrLater(targets: seq<string>, size: nat, parse: string -> Option<string>, address: string, i: nat)
    requires size >= 1 && |targets| > size
    ensures i < size ==> (NamedAt(targets, parse, address, i) <==> NamedAt(targets[..size], parse, address, i)) && ChunkIndex(i, size) == 0
    ensures i >= size ==> (NamedAt(targets, parse, address, i) <==> NamedAt(targets[size..], parse, address, i - size))
                          && ChunkIndex(i, size) == 1 + ChunkIndex(i - size, size)
  {
  }

  lemma NamedSplits(targets: seq<string>, size: nat, parse: string -> Option<string>, address: string)
    requires size >= 1 && |targets| > size
    ensures NamedIn(targets, parse, address) <==> NamedIn(targets[..size], parse, address) || NamedIn(targets[size..], parse, address)
  {
    if i: nat :| NamedAt(targets, parse, address, i) { FirstOrLater(targets, size, parse, address, i); }
    if i: nat :| NamedAt(targets[..size], parse, address, i) { FirstOrLater(targets, size, parse, address, i); }
    if i: nat :| NamedAt(targets[size..], parse, address, i) { FirstOrLater(targets, size, parse, address, size + i); }
  }

  lemma OneChunkSplits(targets: seq<string>, size: nat, parse: string -> Option<string>, address: string)
    requires size >= 1 && |targets| > size
    ensures OneChunkEach(targets, size, parse, address) <==>
            OneChunkEach(targets[size..], size, parse, address)
            && !(NamedIn(targets[..size], parse, address) && NamedIn(targets[size..], parse, address))
  {
    var head, tail := targets[..size], targets[size..];
    if OneChunkEach(targets, size, parse, address) {
      forall i: nat, j: nat | NamedAt(tail, parse, address, i) && NamedAt(tail, parse, address, j)
        ensures ChunkIndex(i, size) == ChunkIndex(j, size)
      {
        FirstOrLater(targets, size, parse, address, size + i);
        FirstOrLater(targets, size, parse, address, size + j);
      }
      if i: nat :| NamedAt(head, parse, address, i) {
        FirstOrLater(targets, size, parse, address, i);
        forall j: nat ensures !NamedAt(tail, parse, address, j) { FirstOrLater(targets, size, parse, address, size + j); }
      }
    } else {
      var i, j :| NamedAt(targets, parse, address, i) && NamedAt(targets, parse, address, j) && ChunkIndex(i, size) != ChunkIndex(j, size);
      FirstOrLater(targets, size, parse, address, i);
      FirstOrLater(targets, size, parse, address, j);
    }
  }

  lemma {:induction false} NamedIff(targets: seq<string>, size: nat, parse: string -> Option<string>, address: string)
    requires size >= 1
    ensures ChunksNaming(Chunks(targets, size), parse, address) > 0 <==> NamedIn(targets, parse, address)
    ensures ChunksNaming(Chunks(targets, size), parse, address) <= 1 <==> OneChunkEach(targets, size, parse, address)
  {
    if |targets| > size {
      var head, tail := targets[..size], targets[size..];
      NamedIff(tail, size, parse, address);
      ChunksNamingFirst(head, Chunks(tail, size), parse, address);
      TopicsName(head, parse, address);
      NamedSplits(targets, size, parse, address);
      OneChunkSplits(targets, size, parse, address);
    } else if targets != [] {
      assert Chunks(targets, size) == [targets];
      assert [targets][..0] == [];
      TopicsName(targets, parse, address);
    }
  }

  /** What a caller can look at before any query: batching is exact, whatever the
      chain holds, exactly when targets standing for one address never fall in
      different chunks. */
  lemma BatchingExactIff(targets: seq<string>, size: nat, parse: string -> Option<string>, side: Side)
    requires size >= 1
    ensures BatchingExact(Chunks(targets, size), parse, side) <==> forall a: string :: OneChunkEach(targets, size, parse, a)
  {
    var chunks := Chunks(targets, size);
    ChunksExactIff(chunks, parse, side);
    if forall a: string :: ChunksNaming(chunks, parse, a) <= 1 {
      forall a: string ensures OneChunkEach(targets, size, parse, a) { NamedIff(targets, size, parse, a); }
    } else {
      var a: string :| ChunksNaming(chunks, parse, a) > 1;
      NamedIff(targets, size, parse, a);
      assert !OneChunkEach(targets, size, parse, a);
    }
  }

  /** Chunks cut from distinct addresses never share one. */
  lemma DistinctTargetsOnce(targets: seq<string>, size: nat, parse: string -> Option<string>, address: string)
    requires size >= 1
    requires forall i, j :: 0 <= i < j < |targets| && parse(targets[i]).Some? ==> parse(targets[i]) != parse(targets[j])
    ensures ChunksNaming(Chunks(targets, size), parse, address) <= 1
    ensures ChunksNaming(Chunks(targets, size), parse, address) > 0 <==> NamedIn(targets, parse, address)
  {
    NamedIff(targets, size, parse, address);
    forall i, j | NamedAt(targets, parse, address, i) && NamedAt(targets, parse, address, j) ensures i == j {
      assert !(i < j) && !(j < i);
    }
  }

  lemma {:induction false} ChunksNamingFirst(head: seq<string>, rest: seq<seq<string>>, parse: string -> Option<string>, address: string)
    ensures ChunksNaming([head] + rest, parse, address)
         == ChunksNaming(rest, parse, address) + if address in Topics(head, parse) then 1 else 0
    decreases |rest|
  {
    if rest == [] {
      assert [head] + rest == [head] && [head][..0] == [];
    } else {
      assert ([head] + rest)[..|rest|] == [head] + rest[..|rest| - 1];
      ChunksNamingFirst(head, rest[..|rest| - 1], parse, address);
    }
  }

  // ---- What is returned ------------------------------------------------------------------

  /** The log is complete, and says this. */
  predicate Tells(l: RawTransfer, t: TransferLog)
  {
    && l.decodes && l.from == t.from && l.to == t.to && l.amount == t.amount
    && l.block == Some(t.block) && l.txHash == Some(t.txHash) && l.logIndex == Some(t.logIndex)
  }

  lemma {:induction false} DecodedMember(logs: seq<RawTransfer>, t: TransferLog)
    ensures t in Decoded(logs) <==> exists l :: l in logs && Tells(l, t)
  {
    if logs != [] {
      DecodedMember(logs[1..], t);
      assert t in Cited(logs[0]) <==> Tells(logs[0], t);
      assert forall l :: l in logs <==> l == logs[0] || l in logs[1..];
    }
  }

  lemma TargetsNamed(chunks: seq<seq<string>>, parse: string -> Option<string>, address: string)
    ensures address in AllTopics(chunks, parse) <==> exists c, a :: c in chunks && a in c && parse(a) == Some(address)
  {
    if address in AllTopics(chunks, parse) {
      var c :| c in chunks && address in Topics(c, parse);
      var a :| a in c && parse(a) == Some(address);
    }
    if c, a :| c in chunks && a in c && parse(a) == Some(address) { assert address in Topics(c, parse); }
  }

  lemma BothPositive(n: nat, c: nat)
    ensures n * c > 0 <==> n > 0 && c > 0
  {
    if n > 0 && c > 0 { assert n * c == (n - 1) * c + c; }
  }

  lemma ReturnedSomewhere(chunks: seq<seq<string>>, parse: string -> Option<string>, side: Side, logs: seq<RawTransfer>, t: TransferLog)
    ensures t in PerChunk(chunks, parse, side, logs) <==> ChunksNaming(chunks, parse, AddressOf(t, side)) > 0 && t in Decoded(logs)
  {
    PerChunkCount(chunks, parse, side, logs, t);
    BothPositive(ChunksNaming(chunks, parse, AddressOf(t, side)), multiset(Decoded(logs))[t]);
    assert t in PerChunk(chunks, parse, side, logs) <==> multiset(PerChunk(chunks, parse, side, logs))[t] > 0;
    assert t in Decoded(logs) <==> multiset(Decoded(logs))[t] > 0;
  }

  /** A transfer is returned exactly if a complete log says it and some target stands
      for its address: the recipient of incoming ones, the sender of outgoing ones. */
  lemma ReturnedIff(chunks: seq<seq<string>>, parse: string -> Option<string>, side: Side, logs: seq<RawTransfer>, t: TransferLog)
    ensures t in PerChunk(chunks, parse, side, logs) <==>
      && (exists l :: l in logs && Tells(l, t))
      && exists c, a :: c in chunks && a in c && parse(a) == Some(if side == Incoming then t.to else t.from)
  {
    ReturnedSomewhere(chunks, parse, side, logs, t);
    NamedSomewhere(chunks, parse, AddressOf(t, side));
    TargetsNamed(chunks, parse, AddressOf(t, side));
    DecodedMember(logs, t);
  }
}
