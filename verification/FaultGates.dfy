/** Fault state of one node as the gates read it.  Random drops and delays are
    left to the network: an envelope that was sent need never arrive. */
module FaultGates {
  datatype Faults = Faults(crashed: bool, partitions: set<string>)

  predicate MaySend(f: Faults, peer: string) {
    !f.crashed && peer !in f.partitions
  }

  predicate MayReceive(f: Faults, peer: string) {
    !f.crashed && peer !in f.partitions
  }

  predicate MayTick(f: Faults) {
    !f.crashed
  }
}
