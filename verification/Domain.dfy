/**
 The value types of the pipeline.  Identities, versions and log sequence numbers are naturals; the
 wire format says which of them fit the 64-bit fields of a frame.
 */
module Domain {

  type Bytes = seq<bv8>

  /** The persisted form of one entity. */
  datatype PlayerState = PlayerState(playerId: nat, version: nat, blob: Bytes)

  /** One write as it travels through the ring; `seqNo` is never persisted. */
  datatype WriteRequest = WriteRequest(playerId: nat, version: nat, blob: Bytes, seqNo: nat) {
    function ToState(): PlayerState {
      PlayerState(playerId, version, blob)
    }
  }

  /** One logged write. */
  datatype WalRecord = WalRecord(lsn: nat, playerId: nat, version: nat, blob: Bytes) {
    function ToState(): PlayerState {
      PlayerState(playerId, version, blob)
    }

    /** The request `submit_durable` puts on the ring: its `seqNo` is the record's LSN. */
    function ToRequest(): WriteRequest {
      WriteRequest(playerId, version, blob, lsn)
    }
  }
}
