/** The hospital simulation's environment as it stands after construction: its
    configuration, a pool of idle doctors whose treatment times cycle through the
    configured list, a waiting queue of freshly spawned patients, no completed
    patients, and the clock and patient-id counter at zero before any spawn. */
module HospitalSim {
  import opened PatientSim
  import opened DoctorSim

  /** The configured treatment time of doctor `i`: the list is reused cyclically. */
  function TreatmentTimeOf(times: seq<int>, i: nat): (t: int)
    requires times != []
    ensures t in times
    ensures i < |times| ==> t == times[i]
  {
    times[i % |times|]
  }

  /** Doctors `i` and `i + |times|` are configured alike. */
  lemma {:induction false} TreatmentTimesCycle(times: seq<int>, i: nat)
    requires times != []
    ensures TreatmentTimeOf(times, i + |times|) == TreatmentTimeOf(times, i)
  {
    var n := |times|;
    assert i + n == (i / n + 1) * n + i % n;
    ModUnique(i + n, n, i / n + 1, i % n);
  }

  /** Euclidean division is unique: `a == q * n + r` with `0 <= r < n` fixes `a % n` as `r`. */
  lemma ModUnique(a: int, n: int, q: int, r: int)
    requires n > 0 && 0 <= r < n && a == q * n + r
    ensures a % n == r
  {
    var d := q - a / n;
    assert d * n == q * n - (a / n) * n;
    assert d * n == a % n - r;
    if d > 0 {
      MultipleAtLeast(d, n);
    } else if d < 0 {
      MultipleAtLeast(-d, n);
    }
  }

  lemma MultipleAtLeast(k: nat, n: nat)
    requires k >= 1
    ensures k * n >= n
  {
  }

  /** `range(n)` in Python is empty for a negative `n`. */
  function RangeLength(n: int): nat
  {
    if n < 0 then 0 else n
  }

  class HospitalEnv {
    var currTime: int
    var pidCounter: int
    var numDoctors: int
    var maxQueue: int
    var maxSeverity: real
    var arrivalRate: real
    var doctors: seq<Doctor>
    var queue: seq<Patient>
    var donePatients: seq<Patient>

    /** The random severity draw used when a patient is spawned; it stands for the
        environment's random source and is supplied by the caller. */
    const severityDraw: int -> real

    /** Every doctor is consistent (busy iff it has a patient iff time remains) and
        the doctor at position `i` has id `i`; every queued patient is waiting. */
    ghost predicate Valid()
      reads this, doctors, queue
    {
      (forall i :: 0 <= i < |doctors| ==> doctors[i].id == i && doctors[i].Consistent())
      && (forall p :: p in queue ==> p.state == Waiting)
    }

    /** Creates the next patient: id from the patient-id counter, which then advances,
        arrival at the current time, severity from the injected draw. */
    method SpawnPatient() returns (p: Patient)
      modifies this`pidCounter
      ensures fresh(p)
      ensures p.id == old(pidCounter) && pidCounter == old(pidCounter) + 1
      ensures p.arrivalTime == currTime && p.severity == severityDraw(p.id)
      ensures p.waitTime == 0 && p.state == Waiting
    {
      p := new Patient(pidCounter, severityDraw(pidCounter), currTime);
      pidCounter := pidCounter + 1;
    }

    constructor (
      numDoctors: int := 1,
      maxQueue: int := 50,
      maxSeverity: real := 30.0,
      arrivalRate: real := 0.3,
      initialNumbers: int := 5,
      treatmentTimePerDoctor: seq<int> := [4],
      nameonly severityDraw: int -> real)
      requires numDoctors > 0 ==> treatmentTimePerDoctor != []
      ensures Valid()
      ensures this.numDoctors == numDoctors && this.maxQueue == maxQueue
      ensures this.maxSeverity == maxSeverity && this.arrivalRate == arrivalRate
      ensures this.severityDraw == severityDraw
      ensures currTime == 0
      ensures |doctors| == RangeLength(numDoctors)
      ensures forall i :: 0 <= i < |doctors| ==>
        fresh(doctors[i]) && doctors[i].id == i && doctors[i].Idle()
        && doctors[i].treatmentTime == TreatmentTimeOf(treatmentTimePerDoctor, i)
      ensures forall i, j :: 0 <= i < j < |doctors| ==> doctors[i] != doctors[j]
      ensures |queue| == RangeLength(initialNumbers) && pidCounter == |queue|
      ensures forall i :: 0 <= i < |queue| ==>
        fresh(queue[i]) && queue[i].id == i && queue[i].arrivalTime == 0
        && queue[i].severity == severityDraw(i)
        && queue[i].waitTime == 0 && queue[i].state == Waiting
      ensures forall i, j :: 0 <= i < j < |queue| ==> queue[i] != queue[j]
      ensures donePatients == []
    {
      currTime := 0;
      pidCounter := 0;
      this.numDoctors := numDoctors;
      this.maxQueue := maxQueue;
      this.maxSeverity := maxSeverity;
      this.arrivalRate := arrivalRate;
      this.severityDraw := severityDraw;
      doctors := [];
      queue := [];
      donePatients := [];
      new;
      var i := 0;
      while i < numDoctors
        invariant 0 <= i <= RangeLength(numDoctors)
        invariant |doctors| == i
        invariant forall k :: 0 <= k < i ==>
          fresh(doctors[k]) && doctors[k].id == k && doctors[k].Idle()
          && doctors[k].treatmentTime == TreatmentTimeOf(treatmentTimePerDoctor, k)
        invariant forall k, l :: 0 <= k < l < i ==> doctors[k] != doctors[l]
        modifies this`doctors
      {
        var t := treatmentTimePerDoctor[i % |treatmentTimePerDoctor|];
        var d := new Doctor(i, treatmentTime := t);
        doctors := doctors + [d];
        assert doctors[i] == d;
        i := i + 1;
      }
      var n := 0;
      while n < initialNumbers
        invariant 0 <= n <= RangeLength(initialNumbers)
        invariant |queue| == n && pidCounter == n
        invariant forall k :: 0 <= k < n ==>
          fresh(queue[k]) && queue[k].id == k && queue[k].arrivalTime == 0
          && queue[k].severity == severityDraw(k)
          && queue[k].waitTime == 0 && queue[k].state == Waiting
        invariant forall k, l :: 0 <= k < l < n ==> queue[k] != queue[l]
        modifies this`queue, this`pidCounter
      {
        var p := SpawnPatient();
        queue := queue + [p];
        assert queue[n] == p;
        n := n + 1;
      }
    }
  }
}
