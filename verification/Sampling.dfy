/** Sampling policies and the sampler's decisions. */
module Sampling {
  import opened Bytes

  datatype SamplePolicy =
    | All
    | FirstN(n: nat)
    | FirstNAndLast(n: nat)
    // `p` is held as its bit pattern; only the outcome of `draw < p` matters to a decision.
    | Probabilistic(p: u64, firstNAlways: nat, keepLast: bool)

  datatype Sample = Record | BufferAsLast | Skip

  /** The decision on call `i`. `below(k)` says whether draw number `k` of the random stream is below
      `p`: a probabilistic policy uses one draw per call once the first calls are over. */
  function Decision(policy: SamplePolicy, below: nat -> bool, i: nat): Sample {
    match policy
    case All => Record
    case FirstN(n) => if i < n then Record else Skip
    case FirstNAndLast(n) => if i < n then Record else BufferAsLast
    case Probabilistic(_, first, keepLast) =>
      if i < first || below(i - first) then Record
      else if keepLast then BufferAsLast
      else Skip
  }

  /** Draws used up before call `i`. */
  function DrawsBefore(policy: SamplePolicy, i: nat): nat {
    if policy.Probabilistic? && i > policy.firstNAlways then i - policy.firstNAlways else 0
  }

  /** `keeps_last`. */
  predicate KeepsLast(policy: SamplePolicy) {
    policy.FirstNAndLast? || (policy.Probabilistic? && policy.keepLast)
  }

  /** Once a draw has sent a call to the buffer, no later draw records one; or the policy keeps no last call, or uses no
      draws. */
  ghost predicate InOrder(policy: SamplePolicy, below: nat -> bool) {
    KeepsLast(policy) && policy.Probabilistic? ==> forall a: nat, b: nat :: a < b && !below(a) ==> !below(b)
  }

  /** Then no call is recorded after one was buffered. */
  lemma {:induction false} NoRecordAfterBuffer(policy: SamplePolicy, below: nat -> bool, i: nat, j: nat)
    requires InOrder(policy, below) && i < j && Decision(policy, below, i).BufferAsLast?
    ensures !Decision(policy, below, j).Record?
  {
    if policy.Probabilistic? {
      assert !below(i - policy.firstNAlways);
      assert !below(j - policy.firstNAlways);
    }
  }

  class Sampler {
    const policy: SamplePolicy
    const below: nat -> bool
    var drawn: nat

    constructor (policy: SamplePolicy, below: nat -> bool)
      ensures this.policy == policy && this.below == below && drawn == 0
    {
      this.policy := policy;
      this.below := below;
      drawn := 0;
    }

    /** The next draw of the random stream, compared with `p`. */
    method Draw() returns (b: bool)
      modifies this
      ensures b == below(old(drawn)) && drawn == old(drawn) + 1
    {
      b := below(drawn);
      drawn := drawn + 1;
    }

    /** Calls are decided in order: call `i` after the draws of the calls before it. */
    method Decide(i: nat) returns (d: Sample)
      requires drawn == DrawsBefore(policy, i)
      modifies this
      ensures d == Decision(policy, below, i) && drawn == DrawsBefore(policy, i + 1)
    {
      match policy {
        case All =>
          d := Record;
        case FirstN(n) =>
          d := if i < n then Record else Skip;
        case FirstNAndLast(n) =>
          d := if i < n then Record else BufferAsLast;
        case Probabilistic(_, first, keepLast) =>
          if i < first {
            d := Record;
          } else {
            var hit := Draw();
            d := if hit then Record else if keepLast then BufferAsLast else Skip;
          }
      }
    }
  }
}
