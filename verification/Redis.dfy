/**
 The keyspace behind the `redis_store` example: keys, values, and the batch SET, refining the plain
 table that `Store.SetAll` describes.  That table is compared with the last-write-wins store in
 `PipelineRedis`.
 */
module Redis {
  import opened Prelude
  import opened Calls
  import opened Domain
  import Frame
  import opened Store

  // ---------------------------------------------------------------- keys

  function Digit(d: nat): char
    requires d < 10
  {
    "0123456789"[d]
  }

  function DigitValue(c: char): nat {
    if '0' <= c <= '9' then c as int - '0' as int else 0
  }

  function Decimal(n: nat): string
    decreases n
  {
    if n < 10 then [Digit(n)] else Decimal(n / 10) + [Digit(n % 10)]
  }

  function Parse(s: string): nat
    decreases |s|
  {
    if s == [] then 0 else 10 * Parse(s[..|s| - 1]) + DigitValue(s[|s| - 1])
  }

  function PlayerKey(id: nat): string {
    "player:" + Decimal(id)
  }

  lemma {:induction false} ParseDecimal(n: nat)
    ensures Parse(Decimal(n)) == n
    decreases n
  {
    assert DigitValue(Digit(n % 10)) == n % 10;
    if n >= 10 {
      ParseDecimal(n / 10);
      assert Decimal(n)[..|Decimal(n)| - 1] == Decimal(n / 10);
    } else {
      assert [Digit(n)][..0] == [];
    }
  }

  /** No two players share a key. */
  lemma KeysDistinct(a: nat, b: nat)
    ensures PlayerKey(a) == PlayerKey(b) <==> a == b
  {
    ParseDecimal(a);
    ParseDecimal(b);
    assert PlayerKey(a)[7..] == Decimal(a) && PlayerKey(b)[7..] == Decimal(b);
  }

  lemma {:induction false} DecimalDigits(n: nat)
    ensures var s := Decimal(n);
            s != [] && (s[0] == '0' <==> n == 0) && forall i :: 0 <= i < |s| ==> '0' <= s[i] <= '9'
    decreases n
  {
    if n >= 10 {
      DecimalDigits(n / 10);
    }
  }

  /** A key is `player:` and the player's number in decimal, without leading zeros. */
  lemma KeyShape(id: nat)
    ensures var key := PlayerKey(id);
            && |key| > 7 && key[..7] == "player:" && (key[7] == '0' <==> id == 0)
            && (forall i :: 7 <= i < |key| ==> '0' <= key[i] <= '9') && Parse(key[7..]) == id
  {
    DecimalDigits(id);
    ParseDecimal(id);
    assert PlayerKey(id)[7..] == Decimal(id);
  }

  // ---------------------------------------------------------------- values

  function EncodeValue(st: PlayerState): Bytes {
    Frame.ToLe(st.version, 8) + st.blob
  }

  /** Too short for a version means absent. */
  function DecodeValue(bytes: Bytes): Option<(nat, Bytes)> {
    if |bytes| < 8 then None else Some((Frame.FromLe(bytes[..8]), bytes[8..]))
  }

  /** The value round trips exactly when the version is a 64-bit number. */
  lemma ValueRoundTrip(st: PlayerState)
    ensures DecodeValue(EncodeValue(st)) == Some((st.version, st.blob)) <==> st.version < Frame.WORD
  {
    hide Frame.ToLe, Frame.FromLe;
    Frame.Powers();
    Frame.ToLeMeaning(st.version, 8);
    var low := Frame.ToLe(st.version, 8);
    Frame.FromLeMeaning(low);
    assert EncodeValue(st)[..8] == low && EncodeValue(st)[8..] == st.blob;
  }

  /** A value is eight bytes of version, byte `i` its digit `i` in base 256, and then the blob. */
  lemma ValueLayout(st: PlayerState, i: nat)
    requires i < 8
    ensures var v := EncodeValue(st);
            && |v| == 8 + |st.blob| && v[8..] == st.blob
            && Frame.Pow256(i) > 0 && Frame.Value(v[i]) == st.version / Frame.Pow256(i) % 256
  {
    hide Frame.ToLe, Frame.Value, Frame.Pow256;
    Frame.ToLeMeaning(st.version, 8);
    Frame.LittleEndian(st.version, 8, i);
  }

  /** A value that decodes is the encoding of what it decodes to. */
  lemma ValueCanonical(id: nat, bytes: Bytes)
    ensures DecodeValue(bytes).Some? <==> |bytes| >= 8
    ensures DecodeValue(bytes).Some? ==>
              var (version, blob) := DecodeValue(bytes).value; EncodeValue(PlayerState(id, version, blob)) == bytes
  {
    if |bytes| >= 8 {
      Frame.FromLeMeaning(bytes[..8]);
      assert bytes == bytes[..8] + bytes[8..];
    }
  }

  // ---------------------------------------------------------------- the store

  type Keyspace = map<string, Bytes>

  /** Each row of the table under its key, and no other player's key. */
  ghost predicate Represents(keys: Keyspace, table: Table) {
    && Keyed(table)
    && (forall id: nat :: PlayerKey(id) in keys <==> id in table)
    && (forall id: nat :: id in table ==>
          table[id].version < Frame.WORD && keys[PlayerKey(id)] == EncodeValue(table[id]))
  }

  lemma SetRepresents(keys: Keyspace, table: Table, st: PlayerState)
    requires Represents(keys, table) && st.version < Frame.WORD
    ensures Represents(keys[PlayerKey(st.playerId) := EncodeValue(st)], table[st.playerId := st])
  {
    hide PlayerKey, EncodeValue;
    var keys', table' := keys[PlayerKey(st.playerId) := EncodeValue(st)], table[st.playerId := st];
    forall id: nat
      ensures (PlayerKey(id) in keys' <==> id in table')
           && (id in table' ==> table'[id].version < Frame.WORD && keys'[PlayerKey(id)] == EncodeValue(table'[id]))
    {
      KeysDistinct(id, st.playerId);
    }
  }

  class RedisStore {
    var keys: Keyspace

    constructor ()
      ensures keys == map[] && Represents(keys, map[])
    {
      keys := map[];
    }

    /** All SETs in one round trip, in batch order, or a transport error and none. */
    method PersistBatch(states: seq<PlayerState>, ghost table: Table) returns (r: Outcome)
      requires Represents(keys, table) && forall st :: st in states ==> st.version < Frame.WORD
      modifies this
      ensures r == Persisted || (r == Retryable && keys == old(keys))
      ensures r == Persisted ==> Represents(keys, SetAll(table, states))
    {
      var fails: bool := *;
      if fails && states != [] {
        return Retryable;
      }
      var i := 0;
      while i < |states|
        invariant 0 <= i <= |states| && Represents(keys, SetAll(table, states[..i]))
      {
        assert states[..i + 1][..i] == states[..i];
        SetRepresents(keys, SetAll(table, states[..i]), states[i]);
        keys := keys[PlayerKey(states[i].playerId) := EncodeValue(states[i])];
        i := i + 1;
      }
      assert states[..|states|] == states;
      r := Persisted;
    }

    /** A load returns the row of the table it represents, or None when the connection is not `up`. */
    method Load(id: nat, up: bool, ghost table: Table) returns (r: Option<PlayerState>)
      requires Represents(keys, table)
      ensures r == if up && id in table then Some(table[id]) else None
    {
      hide Frame.ToLe, Frame.FromLe;
      var key := PlayerKey(id);
      if !up || key !in keys {
        return None;
      }
      ValueRoundTrip(table[id]);
      var d := DecodeValue(keys[key]);
      if d.None? {
        return None;
      }
      r := Some(PlayerState(id, d.value.0, d.value.1));
    }
  }
}
