/** The write-behind cache: last-write-wins entries with dirty bits and a dirty side index. */
module Cache {
  import opened Prelude
  import opened Domain
  import Store

  datatype Entry = Entry(state: PlayerState, dirty: bool)

  type Entries = map<nat, Entry>

  // ---------------------------------------------------------------- what each operation does

  function Applied(m: Entries, req: WriteRequest): Entries {
    if req.playerId in m && req.version < m[req.playerId].state.version
    then m
    else m[req.playerId := Entry(req.ToState(), true)]
  }

  function Cleaned(m: Entries, ids: set<nat>): Entries {
    map p | p in m :: if p in ids then m[p].(dirty := false) else m[p]
  }

  function RequeuedOne(m: Entries, st: PlayerState): Entries {
    if st.playerId in m && m[st.playerId].state.version > st.version
    then m
    else m[st.playerId := Entry(st, true)]
  }

  function Requeued(m: Entries, states: seq<PlayerState>): Entries
    decreases |states|
  {
    if states == [] then m
    else RequeuedOne(Requeued(m, states[..|states| - 1]), states[|states| - 1])
  }

  function DirtyIds(m: Entries): set<nat> {
    set p | p in m && m[p].dirty
  }

  function Ids(states: seq<PlayerState>): set<nat> {
    set st | st in states :: st.playerId
  }

  ghost predicate Keyed(m: Entries) {
    forall p :: p in m ==> m[p].state.playerId == p
  }

  ghost predicate Covers(m: Entries, p: nat, v: nat) {
    p in m && m[p].state.version >= v
  }

  /** None of the states is ahead of its entry; true of every state taken from the cache. */
  ghost predicate BehindEntries(m: Entries, states: seq<PlayerState>) {
    forall st :: st in states ==> Covers(m, st.playerId, st.version)
  }

  /** Putting taken states back loses nothing, moves no version and touches no other player. */
  lemma {:induction false} RequeueKeeps(m: Entries, states: seq<PlayerState>)
    requires Keyed(m) && BehindEntries(m, states)
    ensures var m' := Requeued(m, states);
            && Keyed(m') && m'.Keys == m.Keys
            && (forall p :: p in m ==> m'[p].state.version == m[p].state.version)
            && (forall p :: p in m ==> m'[p].state == m[p].state || m'[p].state in states)
            && (forall p :: p in m && p !in Ids(states) ==> m'[p] == m[p])
    decreases |states|
  {
    if states != [] {
      var init := states[..|states| - 1];
      var last := states[|states| - 1];
      assert states == init + [last];
      RequeueKeeps(m, init);
      IdsExtend(init, last);
    }
  }

  /** Dirty bits survive, and an entry still at the version put back is dirty again. */
  lemma {:induction false} RequeueRearms(m: Entries, states: seq<PlayerState>)
    requires Keyed(m) && BehindEntries(m, states)
    ensures var m' := Requeued(m, states);
            && m'.Keys == m.Keys
            && (forall p :: p in m && m[p].dirty ==> m'[p].dirty)
            && (forall st :: st in states && st.playerId in m && m[st.playerId].state.version == st.version
                  ==> m'[st.playerId].dirty)
    decreases |states|
  {
    if states != [] {
      var init := states[..|states| - 1];
      assert states == init + [states[|states| - 1]];
      RequeueRearms(m, init);
      RequeueKeeps(m, init);
    }
  }

  // ---------------------------------------------------------------- the object

  class WriteBehindCache {
    var entries: Entries
    var dirty: set<nat>

    /** The side index and the dirty bits agree. */
    ghost predicate Valid()
      reads this
    {
      Keyed(entries) && dirty == DirtyIds(entries)
    }

    constructor ()
      ensures Valid() && entries == map[]
    {
      entries, dirty := map[], {};
    }

    method Apply(req: WriteRequest)
      requires Valid()
      modifies this
      ensures Valid() && entries == Applied(old(entries), req)
    {
      if req.playerId in entries {
        if req.version >= entries[req.playerId].state.version {
          entries := entries[req.playerId := Entry(req.ToState(), true)];
          dirty := dirty + {req.playerId};
        }
      } else {
        entries := entries[req.playerId := Entry(req.ToState(), true)];
        dirty := dirty + {req.playerId};
      }
    }

    /** Stages up to `max` dirty entries: any of them, each once, as copies. */
    method TakeDirty(max: nat) returns (out: seq<PlayerState>)
      requires Valid()
      modifies this
      ensures Valid()
      ensures |out| == Min(max, |old(dirty)|) && Store.OnePerPlayer(out)
      ensures forall st :: st in out ==> st.playerId in old(dirty) && old(entries)[st.playerId].state == st
      ensures entries == Cleaned(old(entries), Ids(out))
      ensures dirty == old(dirty) - Ids(out) && |dirty| == |old(dirty)| - |out|
    {
      out := [];
      if max == 0 || dirty == {} {
        assert entries == Cleaned(entries, {});
        return;
      }
      var takeN := Min(max, |dirty|);
      while |out| < takeN
        invariant |out| <= takeN
        invariant Staged(old(entries), entries, out)
        invariant dirty == DirtyIds(entries) && |dirty| == |old(dirty)| - |out|
      {
        assert dirty != {};
        var id :| id in dirty;
        StageOne(old(entries), entries, out, id);
        dirty := dirty - {id};
        out := out + [entries[id].state];
        entries := entries[id := entries[id].(dirty := false)];
      }
    }

    method RequeueDirty(states: seq<PlayerState>)
      requires Valid()
      modifies this
      ensures Valid() && entries == Requeued(old(entries), states)
    {
      var i := 0;
      while i < |states|
        invariant 0 <= i <= |states|
        invariant Valid() && entries == Requeued(old(entries), states[..i])
      {
        var st := states[i];
        assert states[..i + 1][..i] == states[..i];
        if st.playerId in entries {
          if entries[st.playerId].state.version <= st.version {
            entries := entries[st.playerId := Entry(st, true)];
            dirty := dirty + {st.playerId};
          }
        } else {
          entries := entries[st.playerId := Entry(st, true)];
          dirty := dirty + {st.playerId};
        }
        i := i + 1;
      }
      assert states[..|states|] == states;
    }

    method Get(id: nat) returns (r: Option<PlayerState>)
      ensures r == if id in entries then Some(entries[id].state) else None
    {
      r := if id in entries then Some(entries[id].state) else None;
    }
  }

  /** `out` has been staged from `before`, leaving `now`. */
  ghost predicate Staged(before: Entries, now: Entries, out: seq<PlayerState>) {
    && Keyed(before)
    && Store.OnePerPlayer(out)
    && (forall st :: st in out ==> st.playerId in DirtyIds(before) && before[st.playerId].state == st)
    && now == Cleaned(before, Ids(out))
    && DirtyIds(now) == DirtyIds(before) - Ids(out)
  }

  lemma StageOne(before: Entries, now: Entries, out: seq<PlayerState>, id: nat)
    requires Staged(before, now, out) && id in DirtyIds(now)
    ensures var now' := now[id := now[id].(dirty := false)];
            && Staged(before, now', out + [now[id].state])
            && DirtyIds(now') == DirtyIds(now) - {id}
  {
    assert now[id] == before[id] && id !in Ids(out);
    IdsExtend(out, now[id].state);
    var out' := out + [now[id].state];
    forall i, j | 0 <= i < j < |out'| ensures out'[i].playerId != out'[j].playerId {
      assert out'[i] in out;
    }
  }

  lemma IdsExtend(states: seq<PlayerState>, st: PlayerState)
    ensures Ids(states + [st]) == Ids(states) + {st.playerId}
  {
    forall p | p in Ids(states) + {st.playerId} ensures p in Ids(states + [st]) {
      if p in Ids(states) {
        var x :| x in states && x.playerId == p;
        assert x in states + [st];
      } else {
        assert st in states + [st];
      }
    }
  }

  // ---------------------------------------------------------------- whole runs

  datatype Op =
    | Apply(req: WriteRequest)
    | Take(ids: set<nat>)
    | Requeue(batch: seq<PlayerState>)

  /** The entries, and two histories: every state ever applied and every state ever taken. */
  datatype Run = Run(entries: Entries, applied: set<PlayerState>, taken: set<PlayerState>)

  ghost predicate Legal(r: Run, op: Op) {
    match op
    case Apply(_) => true
    case Take(ids) => ids <= DirtyIds(r.entries)
    case Requeue(batch) => forall st :: st in batch ==> st in r.taken
  }

  ghost function Do(r: Run, op: Op): Run
    requires Legal(r, op)
  {
    match op
    case Apply(req) => r.(entries := Applied(r.entries, req), applied := r.applied + {req.ToState()})
    case Take(ids) =>
      r.(entries := Cleaned(r.entries, ids), taken := r.taken + set p | p in ids :: r.entries[p].state)
    case Requeue(batch) => r.(entries := Requeued(r.entries, batch))
  }

  ghost predicate LegalAll(r: Run, ops: seq<Op>)
    decreases |ops|
  {
    ops == [] || (Legal(r, ops[0]) && LegalAll(Do(r, ops[0]), ops[1..]))
  }

  ghost function DoAll(r: Run, ops: seq<Op>): Run
    requires LegalAll(r, ops)
    decreases |ops|
  {
    if ops == [] then r else DoAll(Do(r, ops[0]), ops[1..])
  }

  const EMPTY: Run := Run(map[], {}, {})

  /**
   `requeue_dirty` only ever meets entries at least as new as the state put back: its vacant branch
   and its "live entry strictly older" branch are dead code.
   */
  ghost predicate NoRegress(r: Run) {
    forall st :: st in r.taken ==> Covers(r.entries, st.playerId, st.version)
  }

  /** Each entry holds an applied state of maximal version, and every player applied has an entry. */
  ghost predicate HoldsMaximum(m: Entries, applied: set<PlayerState>) {
    && Keyed(m)
    && (forall p :: p in m ==> m[p].state in applied)
    && (forall st :: st in applied ==> Covers(m, st.playerId, st.version))
  }

  ghost predicate RunOk(r: Run) {
    HoldsMaximum(r.entries, r.applied) && NoRegress(r) && r.taken <= r.applied
  }

  lemma DoOk(r: Run, op: Op)
    requires RunOk(r) && Legal(r, op)
    ensures RunOk(Do(r, op))
  {
    if op.Requeue? {
      RequeueKeeps(r.entries, op.batch);
    }
  }

  /** Any interleaving of applies, takes and requeues of taken states. */
  lemma {:induction false} CacheAgrees(r: Run, ops: seq<Op>)
    requires RunOk(r) && LegalAll(r, ops)
    ensures RunOk(DoAll(r, ops))
    decreases |ops|
  {
    if ops != [] {
      DoOk(r, ops[0]);
      CacheAgrees(Do(r, ops[0]), ops[1..]);
    }
  }

  ghost predicate Newest(applied: set<PlayerState>, st: PlayerState) {
    st in applied && forall o :: o in applied && o.playerId == st.playerId ==> o.version <= st.version
  }

  /** For each player, the highest version applied names one blob. */
  ghost predicate TopVersionsDetermine(applied: set<PlayerState>) {
    forall a, b :: Newest(applied, a) && Newest(applied, b) && a.playerId == b.playerId ==> a == b
  }

  ghost predicate SameContent(m1: Entries, m2: Entries) {
    m1.Keys == m2.Keys && forall p :: p in m1 ==> m1[p].state == m2[p].state
  }

  /** Every run that applied exactly these states ends with the same content. */
  ghost predicate OrderIrrelevant(applied: set<PlayerState>) {
    forall ops1, ops2 ::
      LegalAll(EMPTY, ops1) && LegalAll(EMPTY, ops2)
      && DoAll(EMPTY, ops1).applied == applied && DoAll(EMPTY, ops2).applied == applied
      ==> SameContent(DoAll(EMPTY, ops1).entries, DoAll(EMPTY, ops2).entries)
  }

  lemma MaximaAgree(m1: Entries, m2: Entries, applied: set<PlayerState>)
    requires HoldsMaximum(m1, applied) && HoldsMaximum(m2, applied) && TopVersionsDetermine(applied)
    ensures SameContent(m1, m2)
  {
    forall p | p in m1 ensures p in m2 {
      assert Covers(m2, m1[p].state.playerId, m1[p].state.version);
    }
    forall p | p in m2 ensures p in m1 && m1[p].state == m2[p].state {
      assert Covers(m1, m2[p].state.playerId, m2[p].state.version);
      assert Newest(applied, m1[p].state) && Newest(applied, m2[p].state);
    }
  }

  lemma {:induction false} DoOneMore(r: Run, ops: seq<Op>, op: Op)
    requires LegalAll(r, ops) && Legal(DoAll(r, ops), op)
    ensures LegalAll(r, ops + [op]) && DoAll(r, ops + [op]) == Do(DoAll(r, ops), op)
    decreases |ops|
  {
    if ops == [] {
      assert (ops + [op])[1..] == [];
      assert LegalAll(Do(r, op), []);
    } else {
      DoOneMore(Do(r, ops[0]), ops[1..], op);
      assert (ops + [op])[1..] == ops[1..] + [op];
    }
  }

  lemma {:induction false} ApplyThese(states: set<PlayerState>) returns (ops: seq<Op>)
    ensures LegalAll(EMPTY, ops) && DoAll(EMPTY, ops).applied == states
    decreases |states|
  {
    if states == {} {
      ops := [];
    } else {
      var st :| st in states;
      var rest := ApplyThese(states - {st});
      var req := WriteRequest(st.playerId, st.version, st.blob, 0);
      assert req.ToState() == st && states == (states - {st}) + {st};
      DoOneMore(EMPTY, rest, Apply(req));
      ops := rest + [Apply(req)];
    }
  }

  /** Applying a newest state last leaves exactly that state. */
  lemma NewestLast(applied: set<PlayerState>, st: PlayerState) returns (ops: seq<Op>)
    requires Newest(applied, st)
    ensures LegalAll(EMPTY, ops) && DoAll(EMPTY, ops).applied == applied
    ensures var m := DoAll(EMPTY, ops).entries; st.playerId in m && m[st.playerId].state == st
  {
    var all := ApplyThese(applied);
    CacheAgrees(EMPTY, all);
    var req := WriteRequest(st.playerId, st.version, st.blob, 0);
    DoOneMore(EMPTY, all, Apply(req));
    assert req.ToState() == st;
    ops := all + [Apply(req)];
  }

  /**
   Exactly when order is irrelevant.  However applies, takes and requeues interleave, runs that
   applied the same states agree on content if and only if each player's highest version names one
   blob.
   */
  lemma OrderIrrelevantExactly(applied: set<PlayerState>)
    ensures OrderIrrelevant(applied) <==> TopVersionsDetermine(applied)
  {
    if TopVersionsDetermine(applied) {
      forall ops1, ops2 |
        LegalAll(EMPTY, ops1) && LegalAll(EMPTY, ops2)
        && DoAll(EMPTY, ops1).applied == applied && DoAll(EMPTY, ops2).applied == applied
        ensures SameContent(DoAll(EMPTY, ops1).entries, DoAll(EMPTY, ops2).entries)
      {
        CacheAgrees(EMPTY, ops1);
        CacheAgrees(EMPTY, ops2);
        MaximaAgree(DoAll(EMPTY, ops1).entries, DoAll(EMPTY, ops2).entries, applied);
      }
    }
    if OrderIrrelevant(applied) {
      forall a, b | Newest(applied, a) && Newest(applied, b) && a.playerId == b.playerId ensures a == b {
        var ops1 := NewestLast(applied, a);
        var ops2 := NewestLast(applied, b);
        assert SameContent(DoAll(EMPTY, ops1).entries, DoAll(EMPTY, ops2).entries);
      }
    }
  }

  /**
   In particular, at equal versions `requeue_dirty` puts an older blob back over the newer one.
   */
  lemma EqualVersionsRegress()
    ensures var older, newer := WriteRequest(1, 5, [0], 0), WriteRequest(1, 5, [1], 1);
            var ops := [Apply(older), Take({1}), Apply(newer), Requeue([older.ToState()])];
            LegalAll(EMPTY, ops) && DoAll(EMPTY, ops).entries == map[1 := Entry(older.ToState(), true)]
  {
    var older, newer := WriteRequest(1, 5, [0], 0), WriteRequest(1, 5, [1], 1);
    var a, b, c, d := Apply(older), Take({1}), Apply(newer), Requeue([older.ToState()]);
    var r1 := Do(EMPTY, a);
    assert 1 in DirtyIds(r1.entries);
    var r2 := Do(r1, b);
    assert r1.entries[1].state in r2.taken;
    var r3 := Do(r2, c);
    assert r3.entries == map[1 := Entry(newer.ToState(), true)];
    var r4 := Do(r3, d);
    assert Requeued(r3.entries, [older.ToState()]) == RequeuedOne(r3.entries, older.ToState());
    assert [a, b, c, d][1..] == [b, c, d] && [b, c, d][1..] == [c, d] && [c, d][1..] == [d] && [d][1..] == [];
    assert LegalAll(r3, [d]) && DoAll(r3, [d]) == r4;
    assert LegalAll(r2, [c, d]) && DoAll(r2, [c, d]) == r4;
    assert LegalAll(r1, [b, c, d]) && DoAll(r1, [b, c, d]) == r4;
  }
}
