/** Observations a supervising execution host reports about one agent run. */
module Observations {
  import opened Basics

  type RunId = nat

  function SaturatingSucc(n: nat): nat {
    if n < U64_MAX then n + 1 else U64_MAX
  }

  datatype Kind =
    | Started
    | Progress(step: nat)
    | Result(bytes: seq<Byte>)
    | KnownFailure
    | KnownSuccess
    | ObservationDisconnected
    | ObservationReconnected
    | HarnessCrashed
    | UnknownLiveness
    | EffectUnknown
    | Output(bytes: seq<Byte>)
    | Delayed(ticks: nat)

  datatype HostObservation = HostObservation(runId: RunId, generation: nat, ordinal: nat, kind: Kind)

  /** Observations that count as a performed effect. */
  predicate IsEffect(k: Kind) {
    k.Result? || k.Output?
  }
}
