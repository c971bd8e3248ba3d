/**
 * The replay window, in 64-bit machine arithmetic, and the set of accepted
 * nonces it stands for.
 */
module ReplayWindow {
  import opened Words

  const WINDOW_BITS: nat := 64

  predicate NonceAcceptable(window: u64, max: u64, incoming: u64) {
    incoming > max
    || (max - incoming < WINDOW_BITS && And(window, Shl(1, max - incoming)) == 0)
  }

  /** The next window and maximum, once `incoming` has passed `NonceAcceptable`. */
  function AdvanceWindow(window: u64, max: u64, incoming: u64): (u64, u64) {
    if incoming > max then
      var shift := incoming - max;
      ((if shift >= WINDOW_BITS then 1 else OrWord(Shl(window, shift), 1)), incoming)
    else
      (OrWord(window, Shl(1, max - incoming)), max)
  }

  /**
   * `(window, max)` records exactly which of the last 64 nonces up to `max`
   * are in `accepted`, and no bit stands for a nonce below zero.
   */
  ghost predicate Records(window: u64, max: u64, accepted: set<u64>) {
    && (forall n :: n in accepted ==> n <= max)
    && (accepted == {} <==> max !in accepted)
    && (accepted == {} ==> max == 0)
    && (forall d: nat :: d < WINDOW_BITS ==> (At(window, d) <==> d <= max && max - d in accepted))
  }

  lemma FreshRecords()
    ensures Records(0, 0, {})
  {
    forall d: nat | d < WINDOW_BITS
      ensures !At(0, d)
    {
      AtZero(d);
    }
  }

  /** Acceptance read off the set: new above the maximum, or unseen and less than 64 below it. */
  lemma AcceptsExactly(window: u64, max: u64, accepted: set<u64>, n: u64)
    requires Records(window, max, accepted)
    ensures NonceAcceptable(window, max, n) <==> n > max || (max - n < WINDOW_BITS && n !in accepted)
  {
    if n <= max && max - n < WINDOW_BITS {
      ShlOne(max - n);
      AndPow2(window, max - n);
      assert At(window, max - n) <==> max - (max - n) in accepted;
    }
  }

  lemma AdvanceRecords(window: u64, max: u64, accepted: set<u64>, n: u64)
    requires Records(window, max, accepted) && NonceAcceptable(window, max, n)
    ensures var (window', max') := AdvanceWindow(window, max, n);
            Records(window', max', accepted + {n})
  {
    var (window', max') := AdvanceWindow(window, max, n);
    forall d: nat | d < WINDOW_BITS
      ensures At(window', d) <==> d <= max' && max' - d in accepted + {n}
    {
      if n <= max {
        ShlOne(max - n);
        AtOr(window, Shl(1, max - n), d);
        AtPow2(max - n, d);
      } else {
        AtPow2(0, d);
        var shift := n - max;
        if shift < WINDOW_BITS {
          AtOr(Shl(window, shift), 1, d);
          AtShl(window, shift, d);
          if shift <= d { assert max' - d == max - (d - shift); }
        }
      }
    }
  }
}
