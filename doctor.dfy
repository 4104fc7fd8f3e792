/** A doctor of the hospital simulation: a mutable record of whether the doctor is
    treating someone, for how much longer, and whom. */
module DoctorSim {
  import opened PatientSim

  /** Steps a doctor takes to treat one patient when no other time is given. */
  const DefaultTreatmentTime: int := 4

  class Doctor {
    var id: int
    var busy: bool
    var remainingTime: int
    var currentPatient: Patient?
    var treatmentTime: int

    /** Not treating anyone. */
    predicate Idle()
      reads this
    {
      !busy && remainingTime == 0 && currentPatient == null
    }

    /** Busy exactly when there is a current patient, exactly when treatment time remains. */
    predicate Consistent()
      reads this
    {
      busy == (currentPatient != null) && busy == (remainingTime > 0)
    }

    constructor (did: int, treatmentTime: int := DefaultTreatmentTime)
      ensures id == did && this.treatmentTime == treatmentTime
      ensures Idle() && Consistent()
    {
      id := did;
      busy := false;
      remainingTime := 0;
      currentPatient := null;
      this.treatmentTime := treatmentTime;
    }
  }
}
