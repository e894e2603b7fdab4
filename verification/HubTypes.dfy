/** Values shared by every part of the hub model: operation kinds, statuses, the
    configuration fixed at first start, and the error replies of the handlers. */
module HubTypes {

  datatype Option<+T> = None | Some(value: T)

  datatype Result<+T, +E> = Ok(value: T) | Err(error: E)

  type byte = b: int | 0 <= b < 256

  type Bytes = seq<byte>

  type FileId = string

  const U32_LIMIT := 0x1_0000_0000

  datatype OperationType =
    | CreateUtxos
    | Issuance
    | SendRgb
    | SendBtc
    | Inflation
    | BlindReceive
    | WitnessReceive
    | Burn

  datatype OperationStatus = Pending | Approved | Discarded

  datatype FileType = Consignment | Media | OperationData | OperationPsbt | ResponsePsbt | Fascia

  const AUTO_APPROVED_OPS: set<OperationType> := {Issuance, BlindReceive, WitnessReceive}

  /** The voted operations that move RGB assets. */
  const COLORED_OPS: set<OperationType> := {SendRgb, Inflation, Burn}

  const OPERATION_TYPES_THAT_REQUIRE_SEED: set<OperationType> := {SendRgb, BlindReceive, WitnessReceive}

  /** What the two sets and the threshold mean for each operation type, by name. */
  lemma OperationTypesByName(opType: OperationType)
    ensures opType in AUTO_APPROVED_OPS <==> opType in {Issuance, BlindReceive, WitnessReceive}
    ensures opType in OPERATION_TYPES_THAT_REQUIRE_SEED <==> opType in {SendRgb, BlindReceive, WitnessReceive}
    ensures opType in COLORED_OPS <==> opType in {SendRgb, Inflation, Burn}
  {
  }

  /** `at` lists the chosen positions, in increasing order and each once. */
  ghost predicate Lists(at: seq<nat>, chosen: set<nat>) {
    && (forall i, j | 0 <= i < j < |at| :: at[i] < at[j])
    && (forall i :: i in at <==> i in chosen)
  }

  lemma ListsOneMore(at: seq<nat>, chosen: set<nat>, n: nat)
    requires Lists(at, chosen) && forall i | i in chosen :: i < n
    ensures Lists(at + [n], chosen + {n})
  {
    var more := at + [n];
    forall i ensures i in more <==> i in chosen + {n} {
      assert i in at <==> i in chosen;
    }
    forall i, j | 0 <= i < j < |more| ensures more[i] < more[j] {
      assert at[i] in at;
    }
  }

  /** A seed accompanies an operation exactly when its type requires one. */
  predicate SeedFits(opType: OperationType, seed: Option<Bytes>) {
    seed.Some? <==> opType in OPERATION_TYPES_THAT_REQUIRE_SEED
  }

  /** What the running service knows about its deployment. `overflowChecks` tells a
      build that panics on u8 overflow (debug) from one that wraps (release); `digest`
      is the content hash that names stored files. */
  datatype Config = Config(
    xpubs: map<int, string>,
    thresholdVanilla: byte,
    thresholdColored: byte,
    overflowChecks: bool,
    digest: Bytes -> FileId)
  {
    function Cosigners(): set<int> {
      xpubs.Keys
    }

    /** The bounds the configuration validator imposes, plus the uniqueness of xpubs
        that the cosigner table imposes. */
    ghost predicate Sound() {
      && 2 <= |Cosigners()|
      && 1 <= thresholdVanilla <= |Cosigners()|
      && 1 <= thresholdColored <= |Cosigners()|
      && forall c, d :: c in xpubs && d in xpubs && xpubs[c] == xpubs[d] ==> c == d
    }

    /** The number of votes an operation type needs; None when it is auto-approved. */
    function Threshold(opType: OperationType): (t: Option<byte>)
      ensures t.None? <==> opType in AUTO_APPROVED_OPS
      ensures t.Some? ==> t.value == if opType in COLORED_OPS then thresholdColored else thresholdVanilla
    {
      match opType
      case CreateUtxos | SendBtc => Some(thresholdVanilla)
      case SendRgb | Inflation | Burn => Some(thresholdColored)
      case Issuance | BlindReceive | WitnessReceive => None
    }
  }

  datatype ApiError =
    | AnotherOperationPending
    | InitiatorHasUnprocessed
    | InvalidRequest
    | InvalidOperationType
    | OperationNotFound
    | OperationNotPending
    | AlreadyResponded
    | NotNextToProcess
    | PendingCannotBeProcessed
    | AlreadyProcessed
    | InvalidCount
    | AddressOverflow
    | TransferStatusMismatch
    | Unauthorized
    | Forbidden
    | Internal  // a database or file system call failed
    | Panic     // an `expect`, an index, or checked u8 arithmetic gave up
}
