/** The last-write-wins store: the table, its upsert, and a backend that may refuse a batch. */
module Store {
  import opened Calls
  import opened Domain

  type Table = map<nat, PlayerState>

  function Upserted(table: Table, st: PlayerState): Table {
    if st.playerId in table && st.version < table[st.playerId].version
    then table
    else table[st.playerId := st]
  }

  function UpsertedAll(table: Table, states: seq<PlayerState>): Table
    decreases |states|
  {
    if states == [] then table
    else Upserted(UpsertedAll(table, states[..|states| - 1]), states[|states| - 1])
  }

  /** The store of `redis_store.rs`: SET without looking at the version. */
  function SetAll(table: Table, states: seq<PlayerState>): Table
    decreases |states|
  {
    if states == [] then table
    else var st := states[|states| - 1]; SetAll(table, states[..|states| - 1])[st.playerId := st]
  }

  lemma {:induction false} UpsertConcat(table: Table, a: seq<PlayerState>, b: seq<PlayerState>)
    ensures UpsertedAll(table, a + b) == UpsertedAll(UpsertedAll(table, a), b)
    decreases |b|
  {
    if b == [] {
      assert a + b == a;
    } else {
      var init := b[..|b| - 1];
      UpsertConcat(table, a, init);
      assert (a + b)[..|a + b| - 1] == a + init;
    }
  }

  ghost predicate Keyed(table: Table) {
    forall p :: p in table ==> table[p].playerId == p
  }

  ghost predicate Covers(table: Table, p: nat, v: nat) {
    p in table && table[p].version >= v
  }

  /** No two states of a batch belong to the same player; `take_dirty` only builds such batches. */
  ghost predicate OnePerPlayer(states: seq<PlayerState>) {
    forall i, j :: 0 <= i < j < |states| ==> states[i].playerId != states[j].playerId
  }

  /**
   What an upsert means, whatever the batch order: every row is the row that was there or a state
   of the batch, no row goes back, and every state of the batch is covered.
   */
  lemma {:induction false} UpsertMeaning(table: Table, states: seq<PlayerState>)
    requires Keyed(table)
    ensures var t := UpsertedAll(table, states);
            && Keyed(t)
            && (forall p :: p in t ==> (p in table && t[p] == table[p]) || t[p] in states)
            && (forall p :: p in table ==> Covers(t, p, table[p].version))
            && (forall st :: st in states ==> Covers(t, st.playerId, st.version))
    decreases |states|
  {
    if states != [] {
      hide Upserted;
      var init, last := states[..|states| - 1], states[|states| - 1];
      UpsertMeaning(table, init);
      OneUpserted(UpsertedAll(table, init), last);
      assert states == init + [last];
    }
  }

  /** State `i` has the highest version of its player in the batch, and is the last to have it. */
  ghost predicate Newest(states: seq<PlayerState>, i: nat)
    requires i < |states|
  {
    forall j :: 0 <= j < |states| && states[j].playerId == states[i].playerId ==>
      if j <= i then states[j].version <= states[i].version else states[j].version < states[i].version
  }

  /** Unless the row is newer, it becomes the newest state of the batch; at equal versions the incoming one. */
  lemma {:induction false} UpsertNewest(table: Table, states: seq<PlayerState>, i: nat)
    requires Keyed(table) && i < |states| && Newest(states, i)
    requires var p := states[i].playerId; p in table ==> table[p].version <= states[i].version
    ensures var t, p := UpsertedAll(table, states), states[i].playerId; p in t && t[p] == states[i]
    decreases |states|
  {
    var init, last := states[..|states| - 1], states[|states| - 1];
    UpsertMeaning(table, init);
    if i < |init| {
      assert Newest(init, i);
      UpsertNewest(table, init, i);
    } else {
      assert forall st :: st in init && st.playerId == last.playerId ==> st.version <= last.version;
    }
  }

  lemma OneUpserted(table: Table, st: PlayerState)
    requires Keyed(table)
    ensures var t := Upserted(table, st);
            && Keyed(t) && Covers(t, st.playerId, st.version)
            && (forall p :: p in t ==> (p in table && t[p] == table[p]) || t[p] == st)
            && (forall p :: p in table ==> Covers(t, p, table[p].version))
  {
  }

  /** What SET means for a batch with one state per player: those rows, and the others as they were. */
  lemma {:induction false} SetMeaning(table: Table, states: seq<PlayerState>)
    requires OnePerPlayer(states)
    ensures Keyed(table) ==> Keyed(SetAll(table, states))
    ensures var t := SetAll(table, states); forall st :: st in states ==> st.playerId in t && t[st.playerId] == st
    ensures forall p :: Others(states, p) ==> SameRow(table, SetAll(table, states), p)
    decreases |states|
  {
    if states != [] {
      var init, last := states[..|states| - 1], states[|states| - 1];
      SetMeaning(table, init);
      assert states == init + [last];
      var before, after := SetAll(table, init), SetAll(table, states);
      assert after == before[last.playerId := last];
      forall st | st in states ensures st.playerId in after && after[st.playerId] == st {
        assert st == last || (st in init && st.playerId != last.playerId);
      }
      forall p | Others(states, p) ensures SameRow(table, after, p) {
        assert Others(init, p) && last in states;
      }
    }
  }

  /** SETs happen in batch order: the last one of a player is the one that stays. */
  lemma {:induction false} SetConcat(table: Table, a: seq<PlayerState>, b: seq<PlayerState>)
    ensures SetAll(table, a + b) == SetAll(SetAll(table, a), b)
    decreases |b|
  {
    if b == [] {
      assert a + b == a;
    } else {
      SetConcat(table, a, b[..|b| - 1]);
      assert (a + b)[..|a + b| - 1] == a + b[..|b| - 1];
    }
  }

  /** No state of the batch is about player `p`. */
  ghost predicate Others(states: seq<PlayerState>, p: nat) {
    forall st :: st in states ==> st.playerId != p
  }

  ghost predicate SameRow(t: Table, t': Table, p: nat) {
    (p in t <==> p in t') && (p in t ==> t[p] == t'[p])
  }

  /** A batch whose versions are nowhere behind the table is stored alike by SET and by upsert. */
  lemma {:induction false} SetIsUpsert(table: Table, states: seq<PlayerState>)
    requires OnePerPlayer(states)
    requires forall st :: st in states && st.playerId in table ==> table[st.playerId].version <= st.version
    ensures SetAll(table, states) == UpsertedAll(table, states)
    ensures forall p :: p in UpsertedAll(table, states) && (forall st :: st in states ==> st.playerId != p)
              ==> p in table && UpsertedAll(table, states)[p] == table[p]
    decreases |states|
  {
    if states != [] {
      var init := states[..|states| - 1];
      var last := states[|states| - 1];
      assert states == init + [last];
      SetIsUpsert(table, init);
      assert forall st :: st in init ==> st.playerId != last.playerId;
    }
  }

  /** A backend whose every call may succeed, fail for now, or fail for good. */
  class Backend {
    const trace: CallTrace
    var table: Table

    ghost predicate Valid()
      reads this
    {
      Keyed(table)
    }

    constructor (trace: CallTrace)
      ensures Valid() && table == map[] && this.trace == trace
    {
      this.trace, table := trace, map[];
    }

    method PersistBatch(states: seq<PlayerState>) returns (r: Outcome)
      requires Valid()
      modifies this, trace
      ensures Valid() && trace.calls == old(trace.calls) + [Stored(states, r)]
      ensures table == if r == Persisted then UpsertedAll(old(table), states) else old(table)
    {
      var luck: int := *;
      if luck == 0 {
        trace.Note(Stored(states, Retryable));
        return Retryable;
      }
      if luck == 1 {
        trace.Note(Stored(states, Fatal));
        return Fatal;
      }
      var i := 0;
      while i < |states|
        invariant 0 <= i <= |states|
        invariant table == UpsertedAll(old(table), states[..i]) && Keyed(table)
        invariant trace.calls == old(trace.calls)
      {
        var incoming := states[i];
        assert states[..i + 1][..i] == states[..i];
        if incoming.playerId in table && incoming.version < table[incoming.playerId].version {
          // stale: keep the newer row
        } else {
          table := table[incoming.playerId := incoming];
        }
        i := i + 1;
      }
      assert states[..|states|] == states;
      trace.Note(Stored(states, Persisted));
      r := Persisted;
    }
  }
}
