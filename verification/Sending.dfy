/** Sending a whole payload through partial, interrupted and failing send calls. */
module Sending {
  import opened Octets

  /** What one send call does: takes up to n octets, is interrupted (EINTR), or fails. */
  datatype SendOutcome = Taken(n: nat) | Interrupted | Failed

  /** The octets the calls take before one of them fails or takes none; behind the last outcome the peer is gone. */
  function Capacity(outcomes: seq<SendOutcome>): nat {
    if outcomes == [] then 0 else
    match outcomes[0]
    case Interrupted => Capacity(outcomes[1..])
    case Failed => 0
    case Taken(n) => if n == 0 then 0 else n + Capacity(outcomes[1..])
  }

  /** SendAll's answer. */
  predicate Delivers(outcomes: seq<SendOutcome>, payload: seq<byte>) {
    |payload| <= Capacity(outcomes)
  }

  /** The octets that reach the peer. */
  function Delivered(outcomes: seq<SendOutcome>, payload: seq<byte>): (bytes: seq<byte>)
    ensures bytes <= payload
    ensures Delivers(outcomes, payload) <==> bytes == payload
  {
    if Delivers(outcomes, payload) then payload else payload[..Capacity(outcomes)]
  }

  /** True exactly when everything was delivered; otherwise a proper prefix was. */
  method SendAll(outcomes: seq<SendOutcome>, payload: seq<byte>) returns (ok: bool, delivered: seq<byte>)
    ensures ok == Delivers(outcomes, payload) && delivered == Delivered(outcomes, payload)
  {
    var offset, calls := 0, 0;
    delivered := [];
    while offset < |payload|
      invariant 0 <= calls <= |outcomes| && 0 <= offset <= |payload| && delivered == payload[..offset]
      invariant Delivers(outcomes, payload) <==> |payload| - offset <= Capacity(outcomes[calls..])
      invariant offset < |payload| ==> offset + Capacity(outcomes[calls..]) == Capacity(outcomes)
      decreases |outcomes| - calls
    {
      if calls == |outcomes| {
        return false, delivered;
      }
      assert outcomes[calls..][1..] == outcomes[calls + 1..];
      var outcome := outcomes[calls];
      calls := calls + 1;
      match outcome {
        case Interrupted =>
        case Failed =>
          return false, delivered;
        case Taken(n) =>
          var sent := if n < |payload| - offset then n else |payload| - offset;
          if sent == 0 {
            return false, delivered;
          }
          delivered := delivered + payload[offset..offset + sent];
          offset := offset + sent;
      }
    }
    ok := true;
  }

  /** An interruption anywhere changes nothing about what is delivered. */
  lemma {:induction false} InterruptionIsInvisible(before: seq<SendOutcome>, behind: seq<SendOutcome>, payload: seq<byte>)
    ensures Delivered(before + [Interrupted] + behind, payload) == Delivered(before + behind, payload)
  {
    InterruptionTakesNothing(before, behind);
  }

  lemma {:induction false} InterruptionTakesNothing(before: seq<SendOutcome>, behind: seq<SendOutcome>)
    ensures Capacity(before + [Interrupted] + behind) == Capacity(before + behind)
  {
    if before == [] {
      assert (before + [Interrupted] + behind)[1..] == behind && before + behind == behind;
    } else {
      InterruptionTakesNothing(before[1..], behind);
      assert (before + [Interrupted] + behind)[1..] == before[1..] + [Interrupted] + behind;
      assert (before + behind)[1..] == before[1..] + behind;
    }
  }

  /** Nothing behind a failed call is delivered, nor behind one that takes nothing. */
  lemma {:induction false} NothingBehindFailure(before: seq<SendOutcome>, failure: SendOutcome, behind: seq<SendOutcome>)
    requires failure == Failed || failure == Taken(0)
    ensures Capacity(before + [failure] + behind) == Capacity(before)
  {
    if before == [] {
      assert (before + [failure] + behind)[0] == failure;
    } else {
      NothingBehindFailure(before[1..], failure, behind);
      assert (before + [failure] + behind)[1..] == before[1..] + [failure] + behind;
    }
  }

  function Sum(amounts: seq<nat>): nat {
    if amounts == [] then 0 else amounts[0] + Sum(amounts[1..])
  }

  /** Partial sends add up. */
  lemma {:induction false} PartsAddUp(amounts: seq<nat>)
    requires forall i :: 0 <= i < |amounts| ==> amounts[i] > 0
    ensures Capacity(seq(|amounts|, i requires 0 <= i < |amounts| => Taken(amounts[i]))) == Sum(amounts)
  {
    var outcomes := seq(|amounts|, i requires 0 <= i < |amounts| => Taken(amounts[i]));
    if amounts == [] {
    } else {
      var rest := amounts[1..];
      PartsAddUp(rest);
      assert outcomes[1..] == seq(|rest|, i requires 0 <= i < |rest| => Taken(rest[i]));
    }
  }
}
