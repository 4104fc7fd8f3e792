/** A patient of the hospital simulation: a mutable record whose wait time and
    state the simulation updates after construction. */
module PatientSim {

  /** The documented patient states. */
  datatype PatientState = Waiting | Active

  class Patient {
    var id: int
    var severity: real
    var arrivalTime: int
    var waitTime: int
    var state: PatientState

    /** Any id, severity and arrival time are accepted and stored as given; a new
        patient has waited for nothing yet and is waiting. */
    constructor (pid: int, severity: real, arrivalTime: int)
      ensures id == pid && this.severity == severity && this.arrivalTime == arrivalTime
      ensures waitTime == 0 && state == Waiting
    {
      id := pid;
      this.severity := severity;
      this.arrivalTime := arrivalTime;
      waitTime := 0;
      state := Waiting;
    }
  }
}
