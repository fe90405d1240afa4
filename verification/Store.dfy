/** The indexer's database (crates/indexer/src/store.rs): three event tables
    and one cursor row per chain, written one batch per transaction. */
module Store {
  import opened Common

  /** Every conflict key starts with the chain: (chain, rest of the key). */
  type Keyed<K(==), V> = map<(string, K), V>

  /** An event row's key within its chain: (transaction hash, log index). */
  type EventId = (string, nat)

  datatype Event =
    | Registered(agentId: nat, uri: string, owner: string)
    | Feedback(toAgentId: nat, client: string, index: nat, score: string, decimals: nat)

  /** A decoded log with its provenance, ready to be written. */
  datatype IndexedLog = IndexedLog(
    chain: string, contract: string, block: nat, txHash: string, logIndex: nat,
    blockHash: string, timestamp: int, event: Event)
  {
    function Key(): (string, EventId) { (chain, (txHash, logIndex)) }
  }

  datatype Tables = Tables(
    raw: Keyed<EventId, IndexedLog>,
    agents: Keyed<nat, IndexedLog>,
    feedback: Keyed<EventId, IndexedLog>)

  const EMPTY := Tables(map[], map[], map[])

  /** INSERT ... ON CONFLICT DO NOTHING. */
  function InsertNew<K, V>(m: map<K, V>, k: K, v: V): map<K, V>
  {
    if k in m then m else m[k := v]
  }

  /** The rows one log adds: the audit row, then the row of its typed table. */
  function ApplyLog(t: Tables, l: IndexedLog): Tables
  {
    var t1 := t.(raw := InsertNew(t.raw, l.Key(), l));
    match l.event
    case Registered(id, _, _) => t1.(agents := InsertNew(t1.agents, (l.chain, id), l))
    case Feedback(_, _, _, _, _) => t1.(feedback := InsertNew(t1.feedback, l.Key(), l))
  }

  function ApplyAll(t: Tables, logs: seq<IndexedLog>): Tables
  {
    if logs == [] then t else ApplyLog(ApplyAll(t, logs[..|logs| - 1]), logs[|logs| - 1])
  }

  lemma {:induction false} ApplyAllConcat(t: Tables, a: seq<IndexedLog>, b: seq<IndexedLog>)
    ensures ApplyAll(t, a + b) == ApplyAll(ApplyAll(t, a), b)
    decreases |b|
  {
    if b == [] {
      assert a + b == a;
    } else {
      assert (a + b)[..|a + b| - 1] == a + b[..|b| - 1];
      ApplyAllConcat(t, a, b[..|b| - 1]);
    }
  }

  /** The rows of one chain. */
  function OnChain<K(==), V>(m: Keyed<K, V>, chain: string): Keyed<K, V>
  {
    map k | k in m && k.0 == chain :: m[k]
  }

  function Only(t: Tables, chain: string): Tables
  {
    Tables(OnChain(t.raw, chain), OnChain(t.agents, chain), OnChain(t.feedback, chain))
  }

  lemma InsertOnChain<K, V>(m: Keyed<K, V>, k: (string, K), v: V, chain: string)
    ensures OnChain(InsertNew(m, k, v), chain)
         == if k.0 == chain then InsertNew(OnChain(m, chain), k, v) else OnChain(m, chain)
  {
  }

  ghost predicate AllOn(logs: seq<IndexedLog>, chain: string)
  {
    forall i :: 0 <= i < |logs| ==> logs[i].chain == chain
  }

  /** A batch of one chain acts on that chain's rows as if they were alone. */
  lemma {:induction false} OnlyApplyAll(t: Tables, logs: seq<IndexedLog>, chain: string)
    requires AllOn(logs, chain)
    ensures Only(ApplyAll(t, logs), chain) == ApplyAll(Only(t, chain), logs)
  {
    if logs != [] {
      OnlyApplyAll(t, logs[..|logs| - 1], chain);
      OnlyApplyLog(ApplyAll(t, logs[..|logs| - 1]), logs[|logs| - 1], chain);
    }
  }

  lemma OnlyApplyLog(t: Tables, l: IndexedLog, chain: string)
    ensures Only(ApplyLog(t, l), chain) == if l.chain == chain then ApplyLog(Only(t, chain), l) else Only(t, chain)
  {
    InsertOnChain(t.raw, l.Key(), l, chain);
    match l.event
    case Registered(id, _, _) => InsertOnChain(t.agents, (l.chain, id), l, chain);
    case Feedback(_, _, _, _, _) => InsertOnChain(t.feedback, l.Key(), l, chain);
  }

  /** A batch of one chain leaves every other chain's rows alone. */
  lemma {:induction false} OnlyOther(t: Tables, logs: seq<IndexedLog>, chain: string, other: string)
    requires AllOn(logs, chain) && other != chain
    ensures Only(ApplyAll(t, logs), other) == Only(t, other)
  {
    if logs != [] {
      OnlyOther(t, logs[..|logs| - 1], chain, other);
      OnlyApplyLog(ApplyAll(t, logs[..|logs| - 1]), logs[|logs| - 1], other);
    }
  }

  lemma ApplyAllStep(t: Tables, logs: seq<IndexedLog>, i: nat)
    requires i < |logs|
    ensures ApplyAll(t, logs[..i + 1]) == ApplyLog(ApplyAll(t, logs[..i]), logs[i])
  {
    assert logs[..i + 1][..i] == logs[..i];
  }

  lemma {:induction false} AppliedStays(t: Tables, logs: seq<IndexedLog>, l: IndexedLog)
    requires l in logs
    ensures ApplyLog(ApplyAll(t, logs), l) == ApplyAll(t, logs)
  {
    var n := |logs| - 1;
    if l in logs[..n] {
      AppliedStays(t, logs[..n], l);
      AppliedAgain(ApplyAll(t, logs[..n]), l, logs[n]);
    }
  }

  /** A log whose rows are there already adds none after another log either. */
  lemma AppliedAgain(t: Tables, l: IndexedLog, other: IndexedLog)
    requires ApplyLog(t, l) == t
    ensures ApplyLog(ApplyLog(t, other), l) == ApplyLog(t, other)
  {
  }

  /** Re-indexing is harmless: logs already applied, in any order and any
      number of times, change nothing the second time. */
  lemma {:induction false} ReindexHarmless(t: Tables, logs: seq<IndexedLog>, again: seq<IndexedLog>)
    requires forall l :: l in again ==> l in logs
    ensures ApplyAll(ApplyAll(t, logs), again) == ApplyAll(t, logs)
  {
    if again != [] {
      ReindexHarmless(t, logs, again[..|again| - 1]);
      AppliedStays(t, logs, again[|again| - 1]);
    }
  }

  /** What became of one transaction: it broke at a statement and rolled back,
      it committed, or it committed and the acknowledgement was lost. */
  datatype Fate = BreaksAt(statement: nat) | Commits | CommitsUnacknowledged

  /** BEGIN, two statements a log, the cursor upsert, COMMIT. */
  function StatementCount(logs: seq<IndexedLog>): nat { 2 * |logs| + 3 }

  predicate Lands(fate: Fate, logs: seq<IndexedLog>)
  {
    fate.BreaksAt? ==> fate.statement >= StatementCount(logs)
  }

  datatype State = State(tables: Tables, cursors: map<string, int>)

  /** The whole effect of a committed batch. */
  function Committed(s: State, chain: string, logs: seq<IndexedLog>, cursor: int): State
  {
    State(ApplyAll(s.tables, logs), s.cursors[chain := cursor])
  }

  class Db {
    var raw: Keyed<EventId, IndexedLog>
    var agents: Keyed<nat, IndexedLog>
    var feedback: Keyed<EventId, IndexedLog>
    var cursors: map<string, int>

    constructor ()
      ensures View() == State(EMPTY, map[])
    {
      raw, agents, feedback, cursors := map[], map[], map[], map[];
    }

    function View(): State
      reads this
    {
      State(Tables(raw, agents, feedback), cursors)
    }

    method LoadCursor(chain: string) returns (last: Option<int>)
      ensures last == if chain in cursors then Some(cursors[chain]) else None
    {
      last := if chain in cursors then Some(cursors[chain]) else None;
    }

    /** One transaction: all of the batch and its cursor, or nothing at all. */
    method WriteBatch(chain: string, logs: seq<IndexedLog>, newCursor: nat, fate: Fate)
      returns (r: Result<(), string>)
      requires newCursor <= U64_MAX
      modifies this
      ensures Lands(fate, logs) ==> View() == Committed(old(View()), chain, logs, AsI64(newCursor))
      ensures !Lands(fate, logs) ==> View() == old(View())
      ensures r.Ok? <==> Lands(fate, logs) && !fate.CommitsUnacknowledged?
    {
      // The open transaction's own view of the tables.
      var tx := Tables(raw, agents, feedback);
      if fate == BreaksAt(0) { return Err("begin"); }
      var i := 0;
      while i < |logs|
        invariant 0 <= i <= |logs|
        invariant View() == old(View())
        invariant tx == ApplyAll(old(View()).tables, logs[..i])
        invariant fate.BreaksAt? ==> fate.statement > 2 * i
      {
        var l := logs[i];
        ghost var before := tx;
        ApplyAllStep(old(View()).tables, logs, i);
        if fate == BreaksAt(2 * i + 1) { return Err("raw_events"); }
        tx := tx.(raw := InsertNew(tx.raw, l.Key(), l));
        if fate == BreaksAt(2 * i + 2) { return Err("typed table"); }
        match l.event {
          case Registered(id, _, _) =>
            tx := tx.(agents := InsertNew(tx.agents, (l.chain, id), l));
          case Feedback(_, _, _, _, _) =>
            tx := tx.(feedback := InsertNew(tx.feedback, l.Key(), l));
        }
        assert tx == ApplyLog(before, l);
        i := i + 1;
      }
      assert logs[..|logs|] == logs;
      var txCursors := cursors[chain := AsI64(newCursor)];
      if fate == BreaksAt(2 * |logs| + 1) { return Err("indexer_cursor"); }
      if fate == BreaksAt(2 * |logs| + 2) { return Err("commit"); }
      raw, agents, feedback, cursors := tx.raw, tx.agents, tx.feedback, txCursors;
      r := if fate.CommitsUnacknowledged? then Err("commit acknowledgement lost") else Ok(());
    }
  }
}
