/** Node statuses and the operational rule shared by the broker models. */
module NodeStatus {

  datatype HardwareStatus = Unknown | Inference | PoC | Training | Stopped | Failed

  /** A proof-of-compute sub-status; `Unset` is the empty string a result carries when it sets none. */
  datatype PocStatus = Unset | Idle | Generating | Validating

  datatype EpochPhase =
    | PoCGeneratePhase | PoCGenerateWindDownPhase | PoCValidatePhase | PoCValidateWindDownPhase | InferencePhase

  datatype AdminState = AdminState(enabled: bool, epoch: nat)

  predicate ShouldBeOperational(admin: AdminState, latestEpoch: nat, phase: EpochPhase) {
    if admin.enabled then latestEpoch > admin.epoch || phase == InferencePhase
    else admin.epoch >= latestEpoch
  }
}
