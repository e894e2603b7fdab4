/** The decision as the service computes it: in u8, over votes folded into u8 counters. */
module ByteArithmetic {
  import opened HubTypes
  import A = Approval

  /** u8 addition: None stands for the panic of a build that checks for overflow. */
  function AddU8(checked: bool, a: byte, b: byte): Option<byte> {
    if a + b < 256 then Some(a + b) else if checked then None else Some((a + b) % 256)
  }

  function SubU8(checked: bool, a: byte, b: byte): Option<byte> {
    if a >= b then Some(a - b) else if checked then None else Some((a - b) % 256)
  }

  /** One counter after `count` increments from zero. */
  function CountU8(checked: bool, count: nat): Option<byte> {
    if count == 0 then Some(0)
    else
      var before := CountU8(checked, count - 1);
      if before.None? then None else AddU8(checked, before.value, 1)
  }

  /** The new status for a tally of `acks` and `nacks` among `n` cosigners, where
      `n as u8` truncates. */
  function DecideU8(checked: bool, n: nat, t: byte, acks: nat, nacks: nat): Option<OperationStatus> {
    var a, b := CountU8(checked, acks), CountU8(checked, nacks);
    if a.None? || b.None? then None
    else if a.value >= t then Some(Approved)
    else
      var limit := SubU8(checked, n % 256, t);
      if limit.None? then None
      else if b.value > limit.value then Some(Discarded)
      else Some(Pending)
  }

  lemma {:induction false} CountU8Is(checked: bool, count: nat)
    ensures CountU8(checked, count) == if checked && count > 255 then None else Some(count % 256)
    decreases count
  {
    if count > 0 {
      CountU8Is(checked, count - 1);
      NextRemainder(count - 1);
    }
  }

  lemma NextRemainder(k: nat)
    ensures (k + 1) % 256 == if k % 256 == 255 then 0 else k % 256 + 1
  {
  }

  /** A tally that one vote reaches from a tally that leaves the operation pending. */
  ghost predicate OneVoteAfterPending(n: nat, t: byte, acks: nat, nacks: nat) {
    && acks + nacks <= n
    && (|| (acks > 0 && A.Decide(n, t, acks - 1, nacks) == Pending)
        || (nacks > 0 && A.Decide(n, t, acks, nacks - 1) == Pending))
  }

  /** The configurations whose tallies fit: with overflow checks at most 255 cosigners;
      with wrapping arithmetic, the NACKs that discard an operation must fit a u8. */
  predicate Fits(checked: bool, n: nat, t: byte) {
    if checked then n <= 255 else n - t <= 254
  }

  /** The limit on NACKs comes out right even where the number of cosigners is truncated. */
  lemma LimitIs(checked: bool, n: nat, t: byte)
    requires 1 <= t <= n && Fits(checked, n, t)
    ensures n - t <= 254 && SubU8(checked, n % 256, t) == Some(n - t)
  {
  }

  lemma TallySmall(n: nat, t: byte, acks: nat, nacks: nat)
    requires 1 <= t <= n && OneVoteAfterPending(n, t, acks, nacks)
    ensures acks <= t && nacks <= n - t + 1
  {
  }

  lemma FittingDecision(checked: bool, n: nat, t: byte, acks: nat, nacks: nat)
    requires 1 <= t <= n && Fits(checked, n, t) && OneVoteAfterPending(n, t, acks, nacks)
    ensures DecideU8(checked, n, t, acks, nacks) == Some(A.Decide(n, t, acks, nacks))
  {
    hide CountU8, SubU8, Fits, OneVoteAfterPending;
    TallySmall(n, t, acks, nacks);
    LimitIs(checked, n, t);
    CountU8Is(checked, acks);
    CountU8Is(checked, nacks);
  }

  /** A tally that goes wrong when the configuration does not fit. */
  function Culprit(checked: bool, n: nat, t: byte): (nacks: nat)
    requires 1 <= t <= n && !Fits(checked, n, t)
  {
    var r := n % 256;
    if r >= t then r - t + 1               // the truncated limit is passed too early
    else if checked then 1                 // the first NACK meets an underflow
    else if r < t - 1 && n >= 512 then r - t + 257
    else n - t + 1                         // the counter wraps before it can win
  }

  lemma CulpritGoesWrong(checked: bool, n: nat, t: byte)
    requires 1 <= t <= n && !Fits(checked, n, t)
    ensures OneVoteAfterPending(n, t, 0, Culprit(checked, n, t))
    ensures DecideU8(checked, n, t, 0, Culprit(checked, n, t))
         != Some(A.Decide(n, t, 0, Culprit(checked, n, t)))
  {
    CountU8Is(checked, 0);
    CountU8Is(checked, Culprit(checked, n, t));
  }

  /** The configuration validator admits any number of cosigners, yet the computed
      decision is right on every tally a vote can reach iff the configuration fits. */
  lemma DecisionRightIffFits(checked: bool, n: nat, t: byte)
    requires 1 <= t <= n
    ensures Fits(checked, n, t) <==>
            forall acks: nat, nacks: nat | OneVoteAfterPending(n, t, acks, nacks) ::
              DecideU8(checked, n, t, acks, nacks) == Some(A.Decide(n, t, acks, nacks))
  {
    if Fits(checked, n, t) {
      forall acks: nat, nacks: nat | OneVoteAfterPending(n, t, acks, nacks)
        ensures DecideU8(checked, n, t, acks, nacks) == Some(A.Decide(n, t, acks, nacks))
      {
        FittingDecision(checked, n, t, acks, nacks);
      }
    } else {
      CulpritGoesWrong(checked, n, t);
    }
  }
}
