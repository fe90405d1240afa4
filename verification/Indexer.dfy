/** The ingest loop (crates/indexer/src/ingest.rs): follow each chain from its
    cursor to its safe head, one atomic batch at a time, over any mix of
    failures, restarts and head movements. */
module Indexer {
  import opened Common
  import opened Ledger
  import opened Store
  import Text

  const MAX_BACKOFF_SECS: nat := 60

  /** A log as the RPC returns it; any of the optional parts may be missing. */
  datatype RawLog = RawLog(
    block: Option<nat>, txHash: Option<string>, logIndex: Option<nat>, contract: string, decoded: Option<Event>)

  datatype Header = Header(timestamp: int, hash: string)

  /** One chain as it really is: the logs and the header of every block. */
  datatype World = World(blocks: nat -> seq<RawLog>, headers: nat -> Header)

  datatype Config = Config(chain: string, deployBlock: int, confirmations: nat)

  // ---- Range splitting ---------------------------------------------------

  /** Does this error say that a narrower range would help? */
  predicate IsRangeTooLarge(message: string)
  {
    var s := Text.ToLower(message);
    || Text.Contains(s, "too large")
    || Text.Contains(s, "too many results")
    || Text.Contains(s, "response size")
    || Text.Contains(s, "limited to")
    || Text.Contains(s, "exceed")
    || Text.Contains(s, "block range")
  }

  /** It says so in one of these words, in any case. */
  lemma RangeTooLargeIff(message: string)
    ensures IsRangeTooLarge(message) <==>
      exists word, a, b :: word in {"too large", "too many results", "response size", "limited to", "exceed", "block range"}
        && Text.ToLower(message) == a + word + b
  {
    var s := Text.ToLower(message);
    forall word: string ensures Text.Contains(s, word) <==> exists a, b :: s == a + word + b { ContainsIff(s, word); }
  }

  lemma ContainsIff(s: string, word: string)
    ensures Text.Contains(s, word) <==> exists a, b :: s == a + word + b
  {
    if i :| 0 <= i <= |s| && word <= s[i..] { assert s == s[..i] + word + s[i + |word|..]; }
    if a, b :| s == a + word + b { assert s[|a|..] == word + b; }
  }

  lemma Uses(s: string, word: string, j: nat)
    requires j < |word| && Text.Contains(s, word)
    ensures word[j] in s
  {
    var i :| 0 <= i <= |s| && word <= s[i..];
    assert s[i + j] == word[j];
  }

  const ALCHEMY: string := "query returned more than " + "10000 results"

  lemma AlchemyLetters(i: nat)
    requires i < |ALCHEMY|
    ensures ALCHEMY[i] !in {'g', 'p', 'i', 'x', 'b'} && !('A' <= ALCHEMY[i] <= 'Z') && (ALCHEMY[i] == 'm' <==> i == 15)
  {
    var front, back := "query returned more than ", "10000 results";
    if i < 25 { assert ALCHEMY[i] == front[i]; } else { assert ALCHEMY[i] == back[i - 25]; }
  }

  lemma NotInAlchemy(s: string, word: string, j: nat)
    requires s == Text.ToLower(ALCHEMY) && j < |word| && word[j] in {'g', 'p', 'i', 'x', 'b'}
    ensures !Text.Contains(s, word)
  {
    if Text.Contains(s, word) {
      Uses(s, word, j);
      var i :| 0 <= i < |s| && s[i] == word[j];
      AlchemyLetters(i);
    }
  }

  /** One of the refusals this is documented to recognise is not recognised. */
  lemma RefusalMissed()
    ensures !IsRangeTooLarge(ALCHEMY)
  {
    var s := Text.ToLower(ALCHEMY);
    NotInAlchemy(s, "too large", 7);
    NotInAlchemy(s, "response size", 3);
    NotInAlchemy(s, "limited to", 1);
    NotInAlchemy(s, "exceed", 1);
    NotInAlchemy(s, "block range", 0);
    ManyMissing(s, "too many results");
  }

  /** The one m stands before an o. */
  lemma ManyMissing(s: string, word: string)
    requires s == Text.ToLower(ALCHEMY) && |word| == 16 && word[4] == 'm' && word[5] == 'a'
    ensures !Text.Contains(s, word)
  {
    if Text.Contains(s, word) {
      var i :| 0 <= i <= |s| && word <= s[i..];
      assert s[i + 4] == word[4] && s[i + 5] == word[5];
      AlchemyLetters(i + 4);
      AlchemyLetters(16);
      AlchemyO();
    }
  }

  lemma AlchemyO()
    ensures ALCHEMY[16] == 'o'
  {
  }

  /** A provider that only ever refuses a range that can still be narrowed. */
  ghost predicate Willing(p: Provider<RawLog>)
  {
    forall n: nat, lo: nat, hi: nat :: p(n, lo, hi).Failed? ==> lo < hi && IsRangeTooLarge(p(n, lo, hi).message)
  }

  /** A refusal of lo..hi that the splitter does not retry. */
  ghost predicate FatalRefusal(p: Provider<RawLog>, n: nat, lo: nat, hi: nat, message: string)
  {
    p(n, lo, hi) == Failed(message) && !(lo < hi && IsRangeTooLarge(message))
  }

  /** Fetch from..to, halving whatever the provider calls too large. */
  method FetchLogs(p: Provider<RawLog>, from: nat, to: nat, ghost blocks: nat -> seq<RawLog>)
    returns (r: Result<seq<RawLog>, string>, calls: nat, ghost accepted: seq<Span>)
    requires Honest(blocks, p)
    // What one unlimited query would have returned, or nothing.
    ensures r.Ok? ==> r.value == LogsIn(blocks, from, to)
    ensures r.Ok? && from <= to ==> Tiles(accepted, from, to) && calls == 2 * |accepted| - 1
    // Only a refusal that narrowing cannot help ends it early.
    ensures r.Err? ==> exists n: nat, lo: nat, hi: nat ::
      FatalRefusal(p, n, lo, hi, r.error) && n < calls && (from <= to ==> from <= lo <= hi <= to)
    ensures Willing(p) && from <= to ==> r.Ok?
  {
    var out := [];
    var stack := [Span(from, to)];
    calls, accepted := 0, [];
    ghost var next := from;
    while |stack| > 0
      invariant Scanning(from, to, stack, next, accepted, calls)
      invariant out + LogsIn(blocks, next, to) == LogsIn(blocks, from, to)
      decreases Work(stack)
    {
      var Span(lo, hi) := Top(stack);
      ScanAccept(blocks, from, to, stack, next, accepted, calls);
      match p(calls, lo, hi) {
        case Logs(logs) =>
          stack, accepted, next := Popped(stack), accepted + [Span(lo, hi)], NextAfter(from, to, Span(lo, hi));
          assert out + logs + LogsIn(blocks, next, to) == out + (logs + LogsIn(blocks, next, to));
          out := out + logs;
        case Failed(e) =>
          if IsRangeTooLarge(e) && lo < hi {
            var mid := Midpoint(lo, hi);
            ScanSplit(from, to, stack, next, accepted, calls, mid);
            stack := Popped(stack) + [Span(mid + 1, hi)] + [Span(lo, mid)];
          } else {
            assert FatalRefusal(p, calls, lo, hi, e);
            return Err(e), calls + 1, accepted;
          }
      }
      calls := calls + 1;
    }
    r := Ok(out);
  }

  // ---- Headers and decoding ----------------------------------------------

  /** The header of a block on the n-th request for one; None is any failure. */
  type HeaderSource = (nat, nat) -> Option<Header>

  ghost predicate HonestHeaders(headers: nat -> Header, source: HeaderSource)
  {
    forall n: nat, b: nat :: source(n, b).Some? ==> source(n, b).value == headers(b)
  }

  /** The distinct blocks that produced one of the first n logs. */
  function BlocksOf(logs: seq<RawLog>, n: nat): set<nat>
    requires n <= |logs|
  {
    if n == 0 then {}
    else if logs[n - 1].block.Some? then BlocksOf(logs, n - 1) + {logs[n - 1].block.value}
    else BlocksOf(logs, n - 1)
  }

  lemma {:induction false} BlocksOfMember(logs: seq<RawLog>, i: nat, n: nat)
    requires i < n <= |logs| && logs[i].block.Some?
    ensures logs[i].block.value in BlocksOf(logs, n)
  {
    if i < n - 1 { BlocksOfMember(logs, i, n - 1); }
  }

  /** One header per distinct block that produced a log, or an error. */
  method FetchHeaders(logs: seq<RawLog>, source: HeaderSource, ghost truth: nat -> Header)
    returns (r: Result<map<nat, Header>, string>, calls: nat)
    requires HonestHeaders(truth, source)
    ensures r.Ok? ==> r.value.Keys == BlocksOf(logs, |logs|) && calls == |BlocksOf(logs, |logs|)|
    ensures r.Ok? ==> forall b :: b in r.value ==> r.value[b] == truth(b)
    ensures (forall n: nat, b: nat :: source(n, b).Some?) ==> r.Ok?
  {
    var headers: map<nat, Header> := map[];
    calls := 0;
    for i := 0 to |logs|
      invariant headers.Keys == BlocksOf(logs, i) && calls == |headers.Keys|
      invariant forall b :: b in headers ==> headers[b] == truth(b)
    {
      if logs[i].block.Some? && logs[i].block.value !in headers {
        var number := logs[i].block.value;
        var reply := source(calls, number);
        if reply.None? { return Err("header unavailable"), calls + 1; }
        headers := headers[number := reply.value];
        calls := calls + 1;
      }
    }
    r := Ok(headers);
  }

  /** A log worth storing: confirmed, and recognised by a decoder. */
  function IndexLog(chain: string, log: RawLog, h: Header): Option<IndexedLog>
  {
    if log.block.Some? && log.txHash.Some? && log.logIndex.Some? && log.decoded.Some? then
      Some(IndexedLog(chain, log.contract, log.block.value, log.txHash.value, log.logIndex.value,
                      h.hash, h.timestamp, log.decoded.value))
    else
      None
  }

  /** The decoding pass over fetched logs, with the fetched headers at hand. */
  function Decode(chain: string, logs: seq<RawLog>, headers: map<nat, Header>): seq<IndexedLog>
  {
    if logs == [] then [] else
      var rest := Decode(chain, logs[1..], headers);
      if logs[0].block.Some? && logs[0].block.value in headers then
        match IndexLog(chain, logs[0], headers[logs[0].block.value])
        case Some(il) => [il] + rest
        case None => rest
      else rest
  }

  /** What the chain itself says should be stored for these logs. */
  function Recognised(chain: string, logs: seq<RawLog>, headers: nat -> Header): seq<IndexedLog>
  {
    if logs == [] then [] else
      var rest := Recognised(chain, logs[1..], headers);
      if logs[0].block.None? then rest else
        match IndexLog(chain, logs[0], headers(logs[0].block.value))
        case Some(il) => [il] + rest
        case None => rest
  }

  lemma {:induction false} DecodeIsRecognised(chain: string, logs: seq<RawLog>, headers: map<nat, Header>, truth: nat -> Header)
    requires forall i :: 0 <= i < |logs| && logs[i].block.Some? ==> logs[i].block.value in headers
    requires forall b :: b in headers ==> headers[b] == truth(b)
    ensures Decode(chain, logs, headers) == Recognised(chain, logs, truth)
  {
    if logs != [] {
      DecodeIsRecognised(chain, logs[1..], headers, truth);
    }
  }

  lemma {:induction false} RecognisedConcat(chain: string, a: seq<RawLog>, b: seq<RawLog>, headers: nat -> Header)
    ensures Recognised(chain, a + b, headers) == Recognised(chain, a, headers) + Recognised(chain, b, headers)
  {
    if a == [] {
      assert a + b == b;
    } else {
      assert (a + b)[1..] == a[1..] + b;
      RecognisedConcat(chain, a[1..], b, headers);
    }
  }

  lemma {:induction false} RecognisedOnChain(chain: string, logs: seq<RawLog>, headers: nat -> Header)
    ensures AllOn(Recognised(chain, logs, headers), chain)
  {
    if logs != [] { RecognisedOnChain(chain, logs[1..], headers); }
  }

  // ---- One pass ------------------------------------------------------------

  /** The block after the cursor, or the deploy block on a chain never indexed. */
  function ResumeFrom(cursor: Option<int>, deployBlock: int): nat
    requires cursor.Some? ==> -I64_SIZE <= cursor.value < I64_SIZE
    requires -I64_SIZE <= deployBlock < I64_SIZE
  {
    match cursor
    case Some(last) => if last == I64_SIZE - 1 then AsU64(-I64_SIZE) else AsU64(last + 1)
    case None => Max(deployBlock, 0)
  }

  function SafeHead(head: nat, cfg: Config): nat { Max(head - cfg.confirmations, 0) }

  /** The block has its confirmations once the chain has this head. */
  predicate Deep(b: nat, head: nat, cfg: Config) { b + cfg.confirmations <= head }

  /** The end of the next range: u64 addition wraps in a release build. */
  function BatchEnd(from: nat, batch: nat, safe: nat): nat
  {
    Min((from + batch) % U64_SIZE, safe)
  }

  /** Everything the outside world decides during one pass. */
  datatype Pass = Pass(
    cursorReadable: bool, head: Option<nat>, provider: Provider<RawLog>, headers: HeaderSource, fate: Fate)

  datatype Outcome = Idle | Advanced | Errored

  ghost predicate ValidCursors(s: State)
  {
    forall c :: c in s.cursors ==> -I64_SIZE <= s.cursors[c] < I64_SIZE
  }

  predicate ValidConfig(cfg: Config) { -I64_SIZE <= cfg.deployBlock < I64_SIZE }

  function CursorOf(s: State, chain: string): Option<int>
  {
    if chain in s.cursors then Some(s.cursors[chain]) else None
  }

  function NextBlock(s: State, cfg: Config): nat
    requires ValidConfig(cfg) && (cfg.chain in s.cursors ==> -I64_SIZE <= s.cursors[cfg.chain] < I64_SIZE)
  {
    ResumeFrom(CursorOf(s, cfg.chain), cfg.deployBlock)
  }

  /** The recognised logs of blocks lo..hi, in chain order. */
  function StoredLogs(w: World, chain: string, lo: nat, hi: nat): seq<IndexedLog>
  {
    Recognised(chain, LogsIn(w.blocks, lo, hi), w.headers)
  }

  /** The state after a batch of the blocks from..to has been committed. */
  function BatchDone(s: State, w: World, cfg: Config, from: nat, to: nat): State
    requires to <= U64_MAX
  {
    Committed(s, cfg.chain, StoredLogs(w, cfg.chain, from, to), AsI64(to))
  }

  /** All a single pass can do to the database, whatever the world does. */
  ghost predicate PassEffect(s: State, s': State, w: World, cfg: Config, batch: nat, head: Option<nat>, out: Outcome)
    requires ValidConfig(cfg) && ValidCursors(s)
  {
    match out
    case Idle => head.Some? && s' == s && NextBlock(s, cfg) > Max(head.value - cfg.confirmations, 0)
    case Errored => s' == s || (head.Some? && head.value <= U64_MAX && Covers(s, s', w, cfg, batch, head.value))
    case Advanced => head.Some? && head.value <= U64_MAX && Covers(s, s', w, cfg, batch, head.value)
  }

  ghost predicate Covers(s: State, s': State, w: World, cfg: Config, batch: nat, head: nat)
    requires ValidConfig(cfg) && ValidCursors(s) && head <= U64_MAX
  {
    var from, safe: nat := NextBlock(s, cfg), Max(head - cfg.confirmations, 0);
    from <= safe && s' == BatchDone(s, w, cfg, from, BatchEnd(from, batch, safe))
  }

  /** Nothing goes wrong during this pass. */
  ghost predicate Smooth(pass: Pass)
  {
    && pass.cursorReadable && pass.head.Some? && Willing(pass.provider)
    && (forall n: nat, b: nat :: pass.headers(n, b).Some?)
    && pass.fate.Commits?
  }

  /** Nothing goes wrong, and the range to fetch, if there is one, does not wrap. */
  ghost predicate Served(s: State, cfg: Config, batch: nat, pass: Pass)
    requires ValidConfig(cfg) && ValidCursors(s)
  {
    Smooth(pass) && (NextBlock(s, cfg) <= SafeHead(pass.head.value, cfg) ==> NextBlock(s, cfg) + batch < U64_SIZE)
  }

  ghost predicate HonestPass(pass: Pass, w: World)
  {
    && Honest(w.blocks, pass.provider) && HonestHeaders(w.headers, pass.headers)
    && (pass.head.Some? ==> pass.head.value <= U64_MAX)
  }

  /** Resume point, safe head, fetch, decode, persist. */
  method RunBatch(db: Db, cfg: Config, batch: nat, pass: Pass, ghost w: World) returns (out: Outcome)
    requires ValidConfig(cfg) && ValidCursors(db.View()) && HonestPass(pass, w) && batch <= U64_MAX
    modifies db
    ensures ValidCursors(db.View())
    ensures PassEffect(old(db.View()), db.View(), w, cfg, batch, pass.head, out)
    ensures Served(old(db.View()), cfg, batch, pass) ==> !out.Errored?
  {
    ghost var s := db.View();
    if !pass.cursorReadable { return Errored; }
    var last := db.LoadCursor(cfg.chain);
    var from := ResumeFrom(last, cfg.deployBlock);
    assert from == NextBlock(s, cfg);
    if pass.head.None? { return Errored; }
    var safe := SafeHead(pass.head.value, cfg);
    if from > safe { return Idle; }
    var to := BatchEnd(from, batch, safe);
    var fetched, _, _ := FetchLogs(pass.provider, from, to, w.blocks);
    if fetched.Err? { return Errored; }
    var headers, _ := FetchHeaders(fetched.value, pass.headers, w.headers);
    if headers.Err? { return Errored; }
    forall i | 0 <= i < |fetched.value| && fetched.value[i].block.Some? ensures fetched.value[i].block.value in headers.value {
      BlocksOfMember(fetched.value, i, |fetched.value|);
    }
    DecodeIsRecognised(cfg.chain, fetched.value, headers.value, w.headers);
    var indexed := Decode(cfg.chain, fetched.value, headers.value);
    var written := db.WriteBatch(cfg.chain, indexed, to, pass.fate);
    out := if written.Ok? then Advanced else Errored;
  }

  /** How many passes in a row failed just before pass n. */
  function FailureStreak(outcomes: seq<Outcome>, n: nat): nat
    requires n <= |outcomes|
  {
    if n == 0 || !outcomes[n - 1].Errored? then 0 else 1 + FailureStreak(outcomes, n - 1)
  }

  lemma {:induction false} FailureStreakPrefix(outcomes: seq<Outcome>, o: Outcome, n: nat)
    requires n <= |outcomes|
    ensures FailureStreak(outcomes + [o], n) == FailureStreak(outcomes, n)
  {
    if n > 0 { FailureStreakPrefix(outcomes, o, n - 1); }
  }

  function NapAfter(outcomes: seq<Outcome>, n: nat): nat
    requires n < |outcomes|
  {
    match outcomes[n]
    case Idle => 12
    case Advanced => 0
    case Errored => Min(Pow2(FailureStreak(outcomes, n)), 60)
  }

  /** states[n] to states[n + 1] is what the n-th pass did, and naps[n] the
      sleep after it. */
  ghost predicate Ran(states: seq<State>, outcomes: seq<Outcome>, naps: seq<nat>, passes: seq<Pass>,
                      w: World, cfg: Config, batch: nat)
    requires ValidConfig(cfg)
  {
    && |outcomes| == |naps| <= |passes| && |states| == |outcomes| + 1
    && (forall n :: 0 <= n < |states| ==> ValidCursors(states[n]))
    && (forall n :: 0 <= n < |outcomes| ==>
          PassEffect(states[n], states[n + 1], w, cfg, batch, passes[n].head, outcomes[n]))
    && (forall n :: 0 <= n < |outcomes| ==> Served(states[n], cfg, batch, passes[n]) ==> !outcomes[n].Errored?)
    && (forall n :: 0 <= n < |outcomes| ==> naps[n] == NapAfter(outcomes, n))
  }

  lemma RanOneMore(states: seq<State>, outcomes: seq<Outcome>, naps: seq<nat>, passes: seq<Pass>,
                   w: World, cfg: Config, batch: nat, s': State, out: Outcome, nap: nat)
    requires ValidConfig(cfg) && Ran(states, outcomes, naps, passes, w, cfg, batch) && |outcomes| < |passes|
    requires ValidCursors(s') && nap == NapAfter(outcomes + [out], |outcomes|)
    requires PassEffect(states[|outcomes|], s', w, cfg, batch, passes[|outcomes|].head, out)
    requires Served(states[|outcomes|], cfg, batch, passes[|outcomes|]) ==> !out.Errored?
    ensures Ran(states + [s'], outcomes + [out], naps + [nap], passes, w, cfg, batch)
  {
    forall n | 0 <= n < |outcomes| ensures NapAfter(outcomes + [out], n) == NapAfter(outcomes, n) {
      FailureStreakPrefix(outcomes, out, n);
    }
  }

  /** The endless loop, up to any point at which the process stops. The n-th
      pass meets the world `passes[n]`. */
  method Run(db: Db, cfg: Config, batch: nat, passes: seq<Pass>, ghost w: World)
    returns (outcomes: seq<Outcome>, naps: seq<nat>, ghost states: seq<State>)
    requires ValidConfig(cfg) && ValidCursors(db.View()) && batch <= U64_MAX
    requires forall n :: 0 <= n < |passes| ==> HonestPass(passes[n], w)
    modifies db
    ensures |outcomes| == |passes| && Ran(states, outcomes, naps, passes, w, cfg, batch)
    ensures states[0] == old(db.View()) && states[|passes|] == db.View()
  {
    var backoff: nat := 1;
    outcomes, naps, states := [], [], [db.View()];
    for i := 0 to |passes|
      invariant |outcomes| == i && Ran(states, outcomes, naps, passes, w, cfg, batch)
      invariant states[0] == old(db.View()) && states[i] == db.View()
      invariant backoff == Min(Pow2(FailureStreak(outcomes, i)), MAX_BACKOFF_SECS)
    {
      var out := RunBatch(db, cfg, batch, passes[i], w);
      FailureStreakPrefix(outcomes, out, i);
      var nap: nat := 0;
      match out {
        case Idle => backoff, nap := 1, 12;
        case Advanced => backoff := 1;
        case Errored => nap := backoff; backoff := Min(backoff * 2, MAX_BACKOFF_SECS);
      }
      RanOneMore(states, outcomes, naps, passes, w, cfg, batch, db.View(), out, nap);
      outcomes, naps, states := outcomes + [out], naps + [nap], states + [db.View()];
    }
  }

  // ---- What every history keeps ---------------------------------------------

  /** Where the cursor stands after a batch up to `to`: the casts through the
      signed column and back lose nothing. */
  lemma CursorRoundTrip(s: State, w: World, cfg: Config, from: nat, to: nat)
    requires ValidConfig(cfg) && ValidCursors(s) && to <= U64_MAX
    ensures ValidCursors(BatchDone(s, w, cfg, from, to))
    ensures NextBlock(BatchDone(s, w, cfg, from, to), cfg) == (to + 1) % U64_SIZE
  {
  }

  /** A batch moves the cursor forward exactly when from + batch fits 64 bits and
      the batch does not end on the last block a u64 holds. Otherwise the sum, or
      the step to the next block, wraps and the cursor goes back. */
  lemma CursorAdvancesIff(s: State, s': State, w: World, cfg: Config, batch: nat, head: nat)
    requires ValidConfig(cfg) && ValidCursors(s) && batch <= U64_MAX && head <= U64_MAX
    requires Covers(s, s', w, cfg, batch, head)
    ensures ValidCursors(s')
    ensures NextBlock(s', cfg) > NextBlock(s, cfg) <==>
            NextBlock(s, cfg) + batch < U64_SIZE && Min(NextBlock(s, cfg) + batch, SafeHead(head, cfg)) < U64_MAX
    ensures NextBlock(s', cfg) <= SafeHead(head, cfg) + 1
  {
    var from, safe := NextBlock(s, cfg), SafeHead(head, cfg);
    CursorRoundTrip(s, w, cfg, from, BatchEnd(from, batch, safe));
    if from + batch >= U64_SIZE {
      assert (from + batch) % U64_SIZE == from + batch - U64_SIZE;
    }
  }

  /** The other input: a batch that ends on the last block a u64 holds starts the
      chain over at block 0. */
  lemma CursorCanRestart(w: World)
    requires forall b: nat :: w.blocks(b) == []
    ensures var s, s', cfg := State(EMPTY, map["base" := 9]), State(EMPTY, map["base" := -1]), Config("base", 0, 0);
      && NextBlock(s, cfg) == 10 && 10 + (U64_MAX - 10) < U64_SIZE
      && Covers(s, s', w, cfg, U64_MAX - 10, U64_MAX) && NextBlock(s', cfg) == 0
  {
    var cfg := Config("base", 0, 0);
    assert BatchEnd(10, U64_MAX - 10, U64_MAX) == U64_MAX;
    NothingIn(w.blocks, 10, U64_MAX);
    assert LogsIn(w.blocks, 10, U64_MAX) == [];
  }

  lemma {:induction false} NothingIn(blocks: nat -> seq<RawLog>, lo: nat, hi: nat)
    requires forall b: nat :: blocks(b) == []
    ensures LogsIn(blocks, lo, hi) == []
    decreases hi + 1 - lo
  {
    if lo <= hi { NothingIn(blocks, lo + 1, hi); }
  }

  /** A concrete batch size that sends the cursor of an empty chain from block
      9 back to block 8. */
  lemma CursorCanRegress(w: World)
    requires forall b: nat :: w.blocks(b) == []
    ensures var s, cfg := State(EMPTY, map["base" := 9]), Config("base", 0, 0);
      Covers(s, s.(cursors := map["base" := 8]), w, cfg, U64_MAX - 1, 100)
  {
    var s, cfg := State(EMPTY, map["base" := 9]), Config("base", 0, 0);
    assert (10 + (U64_MAX - 1)) % U64_SIZE == 8;
    assert BatchEnd(NextBlock(s, cfg), U64_MAX - 1, 100) == 8;
    assert LogsIn(w.blocks, 10, 8) == [];
  }

  /** One pass of one chain's loop, as seen from outside; smooth if all of its
      requests succeed. */
  datatype Label = Label(chain: string, batch: nat, head: Option<nat>, smooth: bool, out: Outcome)

  /** The batch to write, if there is one, neither wraps nor ends on the last
      block a u64 holds: where CursorAdvancesIff says that the cursor advances. */
  predicate InRange(s: State, cfg: Config, batch: nat, head: nat)
    requires ValidConfig(cfg) && ValidCursors(s)
  {
    NextBlock(s, cfg) <= SafeHead(head, cfg) ==>
      NextBlock(s, cfg) + batch < U64_SIZE && Min(NextBlock(s, cfg) + batch, SafeHead(head, cfg)) < U64_MAX
  }

  ghost predicate PassInRange(s: State, cfg: Config, l: Label)
    requires ValidConfig(cfg)
  {
    ValidCursors(s) && (l.head.Some? ==> InRange(s, cfg, l.batch, l.head.value))
  }

  /** What an operator can check beforehand, whatever the state. */
  lemma AlwaysInRange(s: State, cfg: Config, batch: nat, head: nat)
    requires ValidConfig(cfg) && ValidCursors(s)
    requires head + batch < U64_SIZE && head < U64_MAX
    ensures InRange(s, cfg, batch, head)
  {
  }

  ghost predicate Setting(cfgs: string -> Config)
  {
    forall c :: cfgs(c).chain == c && ValidConfig(cfgs(c))
  }

  /** Any interleaving of passes of any chains, from any point of time on. */
  ghost predicate History(worlds: string -> World, cfgs: string -> Config, states: seq<State>, labels: seq<Label>)
  {
    && Setting(cfgs)
    && |states| == |labels| + 1
    && (forall n :: 0 <= n < |labels| ==> Passed(states[n], states[n + 1], worlds, cfgs, labels[n]))
  }

  /** Every pass of this chain is in range; those of other chains need not be. */
  ghost predicate StaysInRange(worlds: string -> World, cfgs: string -> Config, states: seq<State>, labels: seq<Label>, chain: string)
    requires History(worlds, cfgs, states, labels)
  {
    forall n :: 0 <= n < |labels| && labels[n].chain == chain ==> PassInRange(states[n], cfgs(chain), labels[n])
  }

  /** The batch size and the head are 64-bit numbers. */
  predicate Sized(l: Label) { l.batch <= U64_MAX && (l.head.Some? ==> l.head.value <= U64_MAX) }

  /** One pass of the labelled chain leads from s to s'. */
  ghost predicate Passed(s: State, s': State, worlds: string -> World, cfgs: string -> Config, l: Label)
    requires Setting(cfgs)
  {
    && ValidCursors(s) && Sized(l)
    && PassEffect(s, s', worlds(l.chain), cfgs(l.chain), l.batch, l.head, l.out)
    && (l.smooth && PassInRange(s, cfgs(l.chain), l) ==> !l.out.Errored?)
  }

  /** Every pass of a run of the loop is such a pass: that a pass does not err when
      all of its requests succeed is what RunBatch ensures. */
  lemma RunPasses(states: seq<State>, outcomes: seq<Outcome>, naps: seq<nat>, passes: seq<Pass>, batch: nat,
                  worlds: string -> World, cfgs: string -> Config, chain: string, n: nat, l: Label)
    requires Setting(cfgs) && Ran(states, outcomes, naps, passes, worlds(chain), cfgs(chain), batch) && n < |outcomes|
    requires l == Label(chain, batch, passes[n].head, Smooth(passes[n]), outcomes[n]) && Sized(l)
    ensures Passed(states[n], states[n + 1], worlds, cfgs, l)
  {
    assert l.smooth && PassInRange(states[n], cfgs(chain), l) ==> Served(states[n], cfgs(chain), batch, passes[n]);
  }

  /** The recognised logs of a chain from its deploy block up to, and not
      including, block `next`. */
  function StoredBelow(w: World, cfg: Config, next: nat): seq<IndexedLog>
  {
    if next <= Max(cfg.deployBlock, 0) then [] else StoredLogs(w, cfg.chain, Max(cfg.deployBlock, 0), next - 1)
  }

  /** The chain's rows are exactly a replay of the chain up to its cursor. */
  ghost predicate Consistent(s: State, w: World, cfg: Config)
    requires ValidConfig(cfg)
  {
    && ValidCursors(s)
    && NextBlock(s, cfg) >= Max(cfg.deployBlock, 0)
    && Only(s.tables, cfg.chain) == ApplyAll(EMPTY, StoredBelow(w, cfg, NextBlock(s, cfg)))
  }

  lemma StoredBelowExtends(w: World, cfg: Config, from: nat, to: nat)
    requires Max(cfg.deployBlock, 0) <= from <= to
    ensures StoredBelow(w, cfg, from) + StoredLogs(w, cfg.chain, from, to) == StoredBelow(w, cfg, to + 1)
  {
    var d := Max(cfg.deployBlock, 0);
    if from > d {
      LogsInSplit(w.blocks, d, from - 1, to);
      RecognisedConcat(cfg.chain, LogsIn(w.blocks, d, from - 1), LogsIn(w.blocks, from, to), w.headers);
    }
  }

  lemma EndInRange(from: nat, batch: nat, safe: nat)
    requires from <= safe && from + batch < U64_SIZE && Min(from + batch, safe) < U64_MAX
    ensures from <= BatchEnd(from, batch, safe) <= safe && BatchEnd(from, batch, safe) < U64_MAX
    ensures (BatchEnd(from, batch, safe) + 1) % U64_SIZE == BatchEnd(from, batch, safe) + 1
  {
  }

  /** Writing the blocks from..to extends the replay by just these. */
  lemma BatchExtends(s: State, w: World, cfg: Config, to: nat)
    requires ValidConfig(cfg) && Consistent(s, w, cfg) && NextBlock(s, cfg) <= to < U64_MAX
    ensures var s' := BatchDone(s, w, cfg, NextBlock(s, cfg), to);
      Consistent(s', w, cfg) && NextBlock(s', cfg) == to + 1
  {
    var from := NextBlock(s, cfg);
    var logs := StoredLogs(w, cfg.chain, from, to);
    CursorRoundTrip(s, w, cfg, from, to);
    RecognisedOnChain(cfg.chain, LogsIn(w.blocks, from, to), w.headers);
    OnlyApplyAll(s.tables, logs, cfg.chain);
    StoredBelowExtends(w, cfg, from, to);
    ApplyAllConcat(EMPTY, StoredBelow(w, cfg, from), logs);
  }

  /** A committed batch keeps its own chain consistent and moves its cursor
      forward to at most the safe head. */
  lemma BatchKeeps(s: State, s': State, w: World, cfg: Config, batch: nat, head: nat)
    requires ValidConfig(cfg) && Consistent(s, w, cfg)
    requires batch <= U64_MAX && head <= U64_MAX && InRange(s, cfg, batch, head) && Covers(s, s', w, cfg, batch, head)
    ensures Consistent(s', w, cfg)
    ensures NextBlock(s, cfg) < NextBlock(s', cfg) <= SafeHead(head, cfg) + 1
  {
    EndInRange(NextBlock(s, cfg), batch, SafeHead(head, cfg));
    BatchExtends(s, w, cfg, BatchEnd(NextBlock(s, cfg), batch, SafeHead(head, cfg)));
  }

  /** A batch of another chain, in range or not, touches neither rows nor cursor
      of this one. */
  lemma OtherBatchKeeps(s: State, s': State, w: World, cfg: Config, batch: nat, head: nat, c: Config, wc: World)
    requires ValidConfig(cfg) && ValidConfig(c) && c.chain != cfg.chain && Consistent(s, wc, c)
    requires batch <= U64_MAX && head <= U64_MAX && Covers(s, s', w, cfg, batch, head)
    ensures Consistent(s', wc, c) && NextBlock(s', c) == NextBlock(s, c)
  {
    var from, safe := NextBlock(s, cfg), SafeHead(head, cfg);
    var to := BatchEnd(from, batch, safe);
    CursorRoundTrip(s, w, cfg, from, to);
    RecognisedOnChain(cfg.chain, LogsIn(w.blocks, from, to), w.headers);
    OnlyOther(s.tables, StoredLogs(w, cfg.chain, from, to), cfg.chain, c.chain);
  }

  /** The next block stays, or moves forward to at most the safe head of the head
      that a pass of this chain was shown. */
  predicate Advance(next: nat, next': nat, l: Label, cfg: Config)
  {
    next' == next || (l.chain == cfg.chain && l.head.Some? && next < next' <= SafeHead(l.head.value, cfg) + 1)
  }

  /** Every block a batch writes is confirmed exactly if the chain is as long as the
      buffer: on a shorter one, block 0 is written at once. */
  lemma BatchConfirmedIff(s: State, s': State, w: World, cfg: Config, batch: nat, head: nat)
    requires ValidConfig(cfg) && Consistent(s, w, cfg)
    requires batch <= U64_MAX && head <= U64_MAX && InRange(s, cfg, batch, head) && Covers(s, s', w, cfg, batch, head)
    ensures (forall b: nat :: NextBlock(s, cfg) <= b < NextBlock(s', cfg) ==> Deep(b, head, cfg)) <==> cfg.confirmations <= head
  {
    BatchKeeps(s, s', w, cfg, batch, head);
    assert Deep(NextBlock(s, cfg), head, cfg) ==> cfg.confirmations <= head;
  }

  /** Any pass of any chain keeps every chain consistent. */
  lemma PassKeeps(s: State, s': State, worlds: string -> World, cfgs: string -> Config, l: Label, chain: string)
    requires Setting(cfgs) && Consistent(s, worlds(chain), cfgs(chain)) && Passed(s, s', worlds, cfgs, l)
    requires l.chain == chain ==> PassInRange(s, cfgs(chain), l)
    ensures Consistent(s', worlds(chain), cfgs(chain))
    ensures Advance(NextBlock(s, cfgs(chain)), NextBlock(s', cfgs(chain)), l, cfgs(chain))
  {
    if s' != s {
      if l.chain == chain {
        BatchKeeps(s, s', worlds(chain), cfgs(chain), l.batch, l.head.value);
      } else {
        OtherBatchKeeps(s, s', worlds(l.chain), cfgs(l.chain), l.batch, l.head.value, cfgs(chain), worlds(chain));
      }
    }
  }

  /** The block lay at least `confirmations` below a head that some pass of the
      chain was shown; or it is the first block of all. */
  ghost predicate Confirmed(b: nat, labels: seq<Label>, cfg: Config)
  {
    b == 0 || exists l :: l in labels && l.chain == cfg.chain && l.head.Some? && Deep(b, l.head.value, cfg)
  }

  /** From `first` on, the next block only moved forward, and every block it
      passed was confirmed. */
  ghost predicate Ascended(first: nat, next: nat, labels: seq<Label>, cfg: Config)
  {
    first <= next && forall b: nat :: first <= b < next ==> Confirmed(b, labels, cfg)
  }

  lemma AscendedFurther(first: nat, next: nat, next': nat, labels: seq<Label>, l: Label, cfg: Config)
    requires Ascended(first, next, labels, cfg) && Advance(next, next', l, cfg)
    ensures Ascended(first, next', labels + [l], cfg)
  {
    var more := labels + [l];
    assert l in more && forall m :: m in labels ==> m in more;
    forall b: nat | first <= b < next' ensures Confirmed(b, more, cfg) {
      if b < next {
        assert Confirmed(b, labels, cfg);
      } else {
        assert b <= SafeHead(l.head.value, cfg);
      }
    }
  }

  /** Safety over every history: each chain's rows always replay the chain up
      to its cursor, and the cursor only moves forward, never past a safe head
      the loop was shown. */
  lemma {:induction false} HistoryKeeps(worlds: string -> World, cfgs: string -> Config, states: seq<State>,
                                        labels: seq<Label>, chain: string, n: nat)
    requires History(worlds, cfgs, states, labels) && n <= |labels|
    requires StaysInRange(worlds, cfgs, states, labels, chain)
    requires Consistent(states[0], worlds(chain), cfgs(chain))
    ensures Consistent(states[n], worlds(chain), cfgs(chain))
    ensures Ascended(NextBlock(states[0], cfgs(chain)), NextBlock(states[n], cfgs(chain)), labels[..n], cfgs(chain))
  {
    if n > 0 {
      HistoryKeeps(worlds, cfgs, states, labels, chain, n - 1);
      NextPassKeeps(worlds, cfgs, states, labels, chain, n - 1);
    }
  }

  lemma NextPassKeeps(worlds: string -> World, cfgs: string -> Config, states: seq<State>, labels: seq<Label>, chain: string, n: nat)
    requires History(worlds, cfgs, states, labels) && n < |labels| && ValidCursors(states[0])
    requires StaysInRange(worlds, cfgs, states, labels, chain)
    requires Consistent(states[n], worlds(chain), cfgs(chain))
    requires Ascended(NextBlock(states[0], cfgs(chain)), NextBlock(states[n], cfgs(chain)), labels[..n], cfgs(chain))
    ensures Consistent(states[n + 1], worlds(chain), cfgs(chain))
    ensures Ascended(NextBlock(states[0], cfgs(chain)), NextBlock(states[n + 1], cfgs(chain)), labels[..n + 1], cfgs(chain))
  {
    TakeMore(labels, n);
    OnePassMore(worlds, cfgs, states[0], states[n], states[n + 1], labels[..n], labels[n], chain);
  }

  lemma OnePassMore(worlds: string -> World, cfgs: string -> Config, first: State, s: State, s': State,
                    labels: seq<Label>, l: Label, chain: string)
    requires Setting(cfgs) && Passed(s, s', worlds, cfgs, l) && ValidCursors(first)
    requires l.chain == chain ==> PassInRange(s, cfgs(chain), l)
    requires Consistent(s, worlds(chain), cfgs(chain))
    requires Ascended(NextBlock(first, cfgs(chain)), NextBlock(s, cfgs(chain)), labels, cfgs(chain))
    ensures Consistent(s', worlds(chain), cfgs(chain))
    ensures Ascended(NextBlock(first, cfgs(chain)), NextBlock(s', cfgs(chain)), labels + [l], cfgs(chain))
  {
    PassKeeps(s, s', worlds, cfgs, l, chain);
    AscendedFurther(NextBlock(first, cfgs(chain)), NextBlock(s, cfgs(chain)), NextBlock(s', cfgs(chain)), labels, l, cfgs(chain));
  }

  /** An empty database is consistent for every chain. */
  lemma EmptyConsistent(w: World, cfg: Config)
    requires ValidConfig(cfg)
    ensures Consistent(State(EMPTY, map[]), w, cfg)
  {
    assert Only(EMPTY, cfg.chain) == EMPTY;
  }

  // ---- What the tables hold -------------------------------------------------

  /** The row carries what its log and the header of its block say. */
  predicate Records(il: IndexedLog, chain: string, l: RawLog, headers: nat -> Header)
  {
    && l.block == Some(il.block) && l.txHash == Some(il.txHash) && l.logIndex == Some(il.logIndex) && l.decoded == Some(il.event)
    && il.chain == chain && il.contract == l.contract
    && il.blockHash == headers(il.block).hash && il.timestamp == headers(il.block).timestamp
  }

  /** A log is stored exactly when some block of the range carries it and it
      is recognised, and it is stored with that block's own header. */
  lemma {:induction false} StoredExactly(w: World, chain: string, lo: nat, hi: nat, il: IndexedLog)
    ensures il in StoredLogs(w, chain, lo, hi) <==>
      exists b: nat, l :: lo <= b <= hi && l in w.blocks(b) && Records(il, chain, l, w.headers)
  {
    var logs := LogsIn(w.blocks, lo, hi);
    RecognisedMember(chain, logs, w.headers, il);
    forall l ensures l in logs <==> exists b: nat :: lo <= b <= hi && l in w.blocks(b) {
      LogsInMember(w.blocks, lo, hi, l);
    }
  }

  lemma {:induction false} RecognisedMember(chain: string, logs: seq<RawLog>, headers: nat -> Header, il: IndexedLog)
    ensures il in Recognised(chain, logs, headers) <==>
      exists l :: l in logs && Records(il, chain, l, headers)
  {
    if logs != [] {
      RecognisedMember(chain, logs[1..], headers, il);
      RecordsIff(il, chain, logs[0], headers);
      assert forall l :: l in logs <==> l == logs[0] || l in logs[1..];
    }
  }

  lemma RecordsIff(il: IndexedLog, chain: string, l: RawLog, headers: nat -> Header)
    ensures Records(il, chain, l, headers) <==> l.block.Some? && IndexLog(chain, l, headers(l.block.value)) == Some(il)
  {
  }

  /** What identifies a log. */
  function KeyOf(l: IndexedLog): (string, EventId) { (l.chain, (l.txHash, l.logIndex)) }

  ghost predicate DistinctKeys(logs: seq<IndexedLog>)
  {
    forall i, j :: 0 <= i < j < |logs| ==> KeyOf(logs[i]) != KeyOf(logs[j])
  }

  lemma ReplayRawStep(logs: seq<IndexedLog>)
    requires logs != []
    ensures var l := logs[|logs| - 1];
      ApplyAll(EMPTY, logs).raw == InsertNew(ApplyAll(EMPTY, logs[..|logs| - 1]).raw, l.Key(), l)
  {
  }

  /** The rows are exactly these logs, each under its own key. */
  ghost predicate HoldsExactly(rows: Keyed<EventId, IndexedLog>, logs: seq<IndexedLog>)
  {
    && |rows| == |logs|
    && (forall k :: k in rows ==> rows[k] in logs && KeyOf(rows[k]) == k)
    && (forall l :: l in logs ==> KeyOf(l) in rows && rows[KeyOf(l)] == l)
  }

  lemma HoldsOneMore(rows: Keyed<EventId, IndexedLog>, logs: seq<IndexedLog>, l: IndexedLog)
    requires HoldsExactly(rows, logs) && DistinctKeys(logs + [l])
    ensures HoldsExactly(InsertNew(rows, KeyOf(l), l), logs + [l])
  {
    var more := logs + [l];
    forall m | m in logs ensures KeyOf(m) != KeyOf(l) {
      var i :| 0 <= i < |logs| && logs[i] == m;
      assert more[i] == m && more[|logs|] == l;
    }
    assert KeyOf(l) !in rows;
    assert rows[KeyOf(l) := l].Keys == rows.Keys + {KeyOf(l)};
    assert forall m :: m in more <==> m in logs || m == l;
  }

  /** Replaying logs with distinct ids keeps every one of them, once, and
      nothing else. */
  lemma {:induction false} ReplayRaw(logs: seq<IndexedLog>)
    requires DistinctKeys(logs)
    ensures HoldsExactly(ApplyAll(EMPTY, logs).raw, logs)
  {
    if logs != [] {
      var init, l := logs[..|logs| - 1], logs[|logs| - 1];
      ReplayRaw(init);
      ReplayRawStep(logs);
      assert logs == init + [l];
      HoldsOneMore(ApplyAll(EMPTY, init).raw, init, l);
    }
  }

  predicate Registers(l: IndexedLog, chain: string, id: nat)
  {
    l.chain == chain && l.event.Registered? && l.event.agentId == id
  }

  /** The agents table holds, for each id, its first registration. */
  lemma {:induction false} ReplayAgents(logs: seq<IndexedLog>, chain: string, id: nat)
    ensures (chain, id) in ApplyAll(EMPTY, logs).agents <==> exists i :: 0 <= i < |logs| && Registers(logs[i], chain, id)
    ensures forall i :: (0 <= i < |logs| && Registers(logs[i], chain, id)
                         && (forall j :: 0 <= j < i ==> !Registers(logs[j], chain, id))) ==>
              ApplyAll(EMPTY, logs).agents[(chain, id)] == logs[i]
  {
    if logs != [] {
      var init, l := logs[..|logs| - 1], logs[|logs| - 1];
      ReplayAgents(init, chain, id);
      assert forall i :: 0 <= i < |init| ==> init[i] == logs[i];
      assert Registers(l, chain, id) ==> Registers(logs[|logs| - 1], chain, id);
    }
  }

  predicate Rates(l: IndexedLog, key: (string, EventId))
  {
    l.event.Feedback? && KeyOf(l) == key
  }

  /** The feedback table holds, for each key, its first feedback, and nothing else. */
  lemma {:induction false} ReplayFeedback(logs: seq<IndexedLog>, key: (string, EventId))
    ensures key in ApplyAll(EMPTY, logs).feedback <==> exists i :: 0 <= i < |logs| && Rates(logs[i], key)
    ensures forall i :: (0 <= i < |logs| && Rates(logs[i], key) && (forall j :: 0 <= j < i ==> !Rates(logs[j], key))) ==>
              ApplyAll(EMPTY, logs).feedback[key] == logs[i]
  {
    if logs != [] {
      var init, l := logs[..|logs| - 1], logs[|logs| - 1];
      ReplayFeedback(init, key);
      assert forall i :: 0 <= i < |init| ==> init[i] == logs[i];
      assert Rates(l, key) ==> Rates(logs[|logs| - 1], key);
    }
  }

  // ---- Progress --------------------------------------------------------------

  /** What a pass without errors does while the safe head stays put. */
  function Follow(s: State, w: World, cfg: Config, batch: nat, safe: nat, passes: nat): (r: State)
    requires ValidConfig(cfg) && ValidCursors(s) && safe <= U64_MAX
    ensures ValidCursors(r)
  {
    if passes == 0 then s else
      var t := Follow(s, w, cfg, batch, safe, passes - 1);
      var from := NextBlock(t, cfg);
      if from > safe then t else BatchDone(t, w, cfg, from, BatchEnd(from, batch, safe))
  }

  /** A pass that does not fail is one step of Follow. */
  lemma ErrorFreePass(s: State, s': State, w: World, cfg: Config, batch: nat, head: nat, out: Outcome)
    requires ValidConfig(cfg) && ValidCursors(s) && head <= U64_MAX
    requires PassEffect(s, s', w, cfg, batch, Some(head), out) && !out.Errored?
    ensures s' == Follow(s, w, cfg, batch, SafeHead(head, cfg), 1)
  {
    assert Follow(s, w, cfg, batch, SafeHead(head, cfg), 0) == s;
  }

  lemma FollowStep(t: State, w: World, cfg: Config, batch: nat, safe: nat)
    requires ValidConfig(cfg) && ValidCursors(t) && NextBlock(t, cfg) <= safe <= U64_MAX
    requires NextBlock(t, cfg) + batch < U64_SIZE && Min(NextBlock(t, cfg) + batch, safe) < U64_MAX
    ensures var from := NextBlock(t, cfg);
      var t' := BatchDone(t, w, cfg, from, BatchEnd(from, batch, safe));
      ValidCursors(t') && NextBlock(t', cfg) == Min(from + batch + 1, safe + 1)
  {
    var from := NextBlock(t, cfg);
    CursorRoundTrip(t, w, cfg, from, BatchEnd(from, batch, safe));
  }

  /** A pass in range that does not err takes the next block batch + 1 further, up
      to the end of what is safe. */
  lemma PassProgress(s: State, s': State, w: World, cfg: Config, batch: nat, head: nat, out: Outcome)
    requires ValidConfig(cfg) && ValidCursors(s) && head <= U64_MAX && InRange(s, cfg, batch, head)
    requires PassEffect(s, s', w, cfg, batch, Some(head), out) && !out.Errored?
    requires NextBlock(s, cfg) <= SafeHead(head, cfg) + 1
    ensures ValidCursors(s') && NextBlock(s', cfg) == Min(NextBlock(s, cfg) + batch + 1, SafeHead(head, cfg) + 1)
  {
    ErrorFreePass(s, s', w, cfg, batch, head, out);
    assert Follow(s, w, cfg, batch, SafeHead(head, cfg), 0) == s;
    if NextBlock(s, cfg) <= SafeHead(head, cfg) { FollowStep(s, w, cfg, batch, SafeHead(head, cfg)); }
  }

  /** A run of the loop whose requests succeed, while the head stays put, is Follow. */
  lemma {:induction false} RunFollows(states: seq<State>, outcomes: seq<Outcome>, naps: seq<nat>, passes: seq<Pass>,
                                      w: World, cfg: Config, batch: nat, head: nat, n: nat)
    requires ValidConfig(cfg) && Ran(states, outcomes, naps, passes, w, cfg, batch) && head <= U64_MAX
    requires forall k :: 0 <= k < |outcomes| ==> passes[k].head == Some(head) && Smooth(passes[k])
    requires n <= |outcomes| && forall k :: 0 <= k < n ==> InRange(states[k], cfg, batch, head)
    ensures states[n] == Follow(states[0], w, cfg, batch, SafeHead(head, cfg), n)
  {
    if n > 0 {
      RunFollows(states, outcomes, naps, passes, w, cfg, batch, head, n - 1);
      assert Served(states[n - 1], cfg, batch, passes[n - 1]);
      assert PassEffect(states[n - 1], states[n - 1 + 1], w, cfg, batch, passes[n - 1].head, outcomes[n - 1]);
      ErrorFreePass(states[n - 1], states[n], w, cfg, batch, head, outcomes[n - 1]);
      assert Follow(states[n - 1], w, cfg, batch, SafeHead(head, cfg), 0) == states[n - 1];
    }
  }

  /** Progress of the loop: while requests succeed and batches are in range, each
      pass covers batch + 1 blocks until the safe head is reached, and then the
      cursor rests there. */
  lemma {:induction false} RunReaches(states: seq<State>, outcomes: seq<Outcome>, naps: seq<nat>, passes: seq<Pass>,
                                      w: World, cfg: Config, batch: nat, head: nat, n: nat)
    requires ValidConfig(cfg) && Ran(states, outcomes, naps, passes, w, cfg, batch) && head <= U64_MAX
    requires forall k :: 0 <= k < |outcomes| ==> passes[k].head == Some(head) && Smooth(passes[k])
    requires n <= |outcomes| && forall k :: 0 <= k < n ==> InRange(states[k], cfg, batch, head)
    requires NextBlock(states[0], cfg) <= Max(head - cfg.confirmations, 0) + 1
    ensures NextBlock(states[n], cfg) == Min(NextBlock(states[0], cfg) + n * (batch + 1), Max(head - cfg.confirmations, 0) + 1)
  {
    if n > 0 {
      RunReaches(states, outcomes, naps, passes, w, cfg, batch, head, n - 1);
      assert Served(states[n - 1], cfg, batch, passes[n - 1]);
      assert PassEffect(states[n - 1], states[n - 1 + 1], w, cfg, batch, passes[n - 1].head, outcomes[n - 1]);
      PassProgress(states[n - 1], states[n], w, cfg, batch, head, outcomes[n - 1]);
      assert n * (batch + 1) == (n - 1) * (batch + 1) + batch + 1;
    }
  }

  function OwnPass(chain: string): Label -> nat
  {
    (l: Label) => if l.chain == chain then 1 else 0
  }

  /** The chain's own passes see this head and this batch size, and their requests
      succeed. */
  ghost predicate Steady(labels: seq<Label>, chain: string, batch: nat, head: nat)
  {
    forall n :: 0 <= n < |labels| && labels[n].chain == chain ==>
      labels[n].batch == batch && labels[n].head == Some(head) && labels[n].smooth
  }

  /** One more pass, of this chain or of another. */
  lemma PassReaches(s: State, s': State, worlds: string -> World, cfgs: string -> Config, l: Label, chain: string, batch: nat, head: nat)
    requires Setting(cfgs) && Consistent(s, worlds(chain), cfgs(chain)) && Passed(s, s', worlds, cfgs, l)
    requires l.chain == chain ==> l.batch == batch && l.head == Some(head) && l.smooth && PassInRange(s, cfgs(chain), l)
    requires NextBlock(s, cfgs(chain)) <= SafeHead(head, cfgs(chain)) + 1
    ensures NextBlock(s', cfgs(chain)) ==
            if l.chain == chain then Min(NextBlock(s, cfgs(chain)) + batch + 1, SafeHead(head, cfgs(chain)) + 1) else NextBlock(s, cfgs(chain))
  {
    var cfg := cfgs(chain);
    if l.chain == chain {
      PassProgress(s, s', worlds(chain), cfg, batch, head, l.out);
    } else if s' != s {
      OtherBatchKeeps(s, s', worlds(l.chain), cfgs(l.chain), l.batch, l.head.value, cfg, worlds(chain));
    }
  }

  /** From `first` on, each of the chain's passes among these took the next block
      batch + 1 further, up to `end`. */
  ghost predicate Reached(first: nat, next: nat, labels: seq<Label>, chain: string, batch: nat, end: nat)
  {
    next == Min(first + SumOf(labels, OwnPass(chain)) * (batch + 1), end)
  }

  lemma ReachedFurther(first: nat, next: nat, next': nat, labels: seq<Label>, l: Label, chain: string, batch: nat, end: nat)
    requires Reached(first, next, labels, chain, batch, end)
    requires next' == if l.chain == chain then Min(next + batch + 1, end) else next
    ensures Reached(first, next', labels + [l], chain, batch, end)
  {
    var k, more := SumOf(labels, OwnPass(chain)), labels + [l];
    assert more[..|labels|] == labels;
    assert (k + 1) * (batch + 1) == k * (batch + 1) + batch + 1;
  }

  lemma OnePassOn(worlds: string -> World, cfgs: string -> Config, first: nat, s: State, s': State,
                  labels: seq<Label>, l: Label, chain: string, batch: nat, head: nat)
    requires Setting(cfgs) && Passed(s, s', worlds, cfgs, l) && Consistent(s, worlds(chain), cfgs(chain))
    requires l.chain == chain ==> l.batch == batch && l.head == Some(head) && l.smooth && PassInRange(s, cfgs(chain), l)
    requires Reached(first, NextBlock(s, cfgs(chain)), labels, chain, batch, SafeHead(head, cfgs(chain)) + 1)
    ensures Consistent(s', worlds(chain), cfgs(chain))
    ensures Reached(first, NextBlock(s', cfgs(chain)), labels + [l], chain, batch, SafeHead(head, cfgs(chain)) + 1)
  {
    PassReaches(s, s', worlds, cfgs, l, chain, batch, head);
    PassKeeps(s, s', worlds, cfgs, l, chain);
    ReachedFurther(first, NextBlock(s, cfgs(chain)), NextBlock(s', cfgs(chain)), labels, l, chain, batch, SafeHead(head, cfgs(chain)) + 1);
  }

  /** Progress over every history: whatever passes of other chains come between,
      failing or not, the chain's own passes carry its cursor to the safe head,
      batch + 1 blocks each. */
  lemma {:induction false} HistoryReaches(worlds: string -> World, cfgs: string -> Config, states: seq<State>, labels: seq<Label>,
                                          chain: string, batch: nat, head: nat, n: nat)
    requires History(worlds, cfgs, states, labels) && n <= |labels| && Steady(labels, chain, batch, head)
    requires StaysInRange(worlds, cfgs, states, labels, chain)
    requires Consistent(states[0], worlds(chain), cfgs(chain))
    requires NextBlock(states[0], cfgs(chain)) <= Max(head - cfgs(chain).confirmations, 0) + 1
    ensures Consistent(states[n], worlds(chain), cfgs(chain))
    ensures Reached(NextBlock(states[0], cfgs(chain)), NextBlock(states[n], cfgs(chain)), labels[..n], chain, batch, Max(head - cfgs(chain).confirmations, 0) + 1)
  {
    if n == 0 {
      assert labels[..0] == [];
    } else {
      HistoryReaches(worlds, cfgs, states, labels, chain, batch, head, n - 1);
      NextPassOn(worlds, cfgs, states, labels, chain, batch, head, NextBlock(states[0], cfgs(chain)), n - 1);
    }
  }

  lemma NextPassOn(worlds: string -> World, cfgs: string -> Config, states: seq<State>, labels: seq<Label>,
                   chain: string, batch: nat, head: nat, first: nat, n: nat)
    requires History(worlds, cfgs, states, labels) && n < |labels| && Steady(labels, chain, batch, head)
    requires StaysInRange(worlds, cfgs, states, labels, chain) && Consistent(states[n], worlds(chain), cfgs(chain))
    requires Reached(first, NextBlock(states[n], cfgs(chain)), labels[..n], chain, batch, SafeHead(head, cfgs(chain)) + 1)
    ensures Consistent(states[n + 1], worlds(chain), cfgs(chain))
    ensures Reached(first, NextBlock(states[n + 1], cfgs(chain)), labels[..n + 1], chain, batch, SafeHead(head, cfgs(chain)) + 1)
  {
    TakeMore(labels, n);
    OnePassOn(worlds, cfgs, first, states[n], states[n + 1], labels[..n], labels[n], chain, batch, head);
  }

  /** What consistency means for a reader of the table: the chain's audit rows are
      exactly its recognised logs from the deploy block up to the cursor, each
      once under its own key. */
  lemma ConsistentHolds(s: State, w: World, cfg: Config)
    requires ValidConfig(cfg) && Consistent(s, w, cfg) && DistinctKeys(StoredBelow(w, cfg, NextBlock(s, cfg)))
    ensures HoldsExactly(OnChain(s.tables.raw, cfg.chain), StoredBelow(w, cfg, NextBlock(s, cfg)))
  {
    ReplayRaw(StoredBelow(w, cfg, NextBlock(s, cfg)));
    assert Only(s.tables, cfg.chain).raw == OnChain(s.tables.raw, cfg.chain);
  }
}
