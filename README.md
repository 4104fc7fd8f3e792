# Triage scheduler core in Dafny

A model of two parts of an emergency-triage queue simulation for chest X-ray
reads, with proofs about them.

1. **Metrics value types** (`rl_environment/envs/datatypes.py`). A `Case`
   derives its wait time, turnaround time and SLA violation from its arrival
   time and an optional completion time. `EpisodeMetrics` derives four values:
   the median urgent turnaround time (TAT), the 90th-percentile urgent TAT,
   the SLA violation rate and the throughput per hour. `QueueStats` is a plain
   record. No method of these classes assigns a field. The Python dataclasses
   are not frozen, and a case's completion time is set outside this code.
   They are modelled as immutable datatypes with member functions over exact `real`s, in module `TriageTypes`
   (`datatypes.dfy`). Python's `sorted` is modelled by module `Sorting`
   (`sorting.dfy`). It is an insertion sort proved to return an ascending
   permutation. `SortedUnique` proves that this permutation is the only one,
   so the statistics do not depend on which sorting algorithm computes them.
2. **Simulation initial state** (`sim/`). `Patient` and `Doctor` are mutable
   state holders. They are modelled as Dafny classes (`patient.dfy`,
   `doctor.dfy`). Their constructors set up the waiting patient and the idle
   doctor. `HospitalEnv` (`hospital_env.dfy`) is a class whose constructor
   does three things:
   - it stores the configuration;
   - it builds the doctor list in a loop, with treatment times taken cyclically
     from the configured list;
   - it fills the waiting queue in a second loop, using `SpawnPatient`.

   Both loops carry invariants. The constructor's postcondition states the
   whole initial state. The class also documents its invariant as `Valid()`:
   every doctor is consistent (busy iff it has a patient iff time remains),
   doctor `i` has id `i`, and every queued patient is waiting. After
   construction this already follows from the other postconditions.

The model follows the code in these points:
- Patient states are `waiting` and `active` (`sim/patient.py:7`).
- The `HospitalEnv` constructor does not reject an `initial_numbers` above
  `max_queue` (`sim/hospital_env.py:47-48`).
- It does not reject an empty treatment-time list when there are no doctors
  (`sim/hospital_env.py:36-37`).
- Neither it nor the `Patient` constructor bounds the severity
  (`sim/patient.py:2-4`).
- The only constructor precondition is the one the code needs: the modulo at
  `sim/hospital_env.py:37` must not divide by zero.

## Model

| member | source | states |
|---|---|---|
| Sorting.Sort | rl_environment/envs/datatypes.py:54 | the sorted copy is in ascending order and holds exactly the elements of the input (same multiset, same length) |
| Sorting.Insert | rl_environment/envs/datatypes.py:63 | inserting into an ascending list keeps it ascending and adds exactly the one element |
| Sorting.SortedUnique | rl_environment/envs/datatypes.py:54 | two ascending permutations of the same list are equal, so any correct sort yields the same sorted copy |
| Sorting.CountPermutation | rl_environment/envs/datatypes.py:63 | how many elements lie on one side of a value does not depend on their order, so counts over the sorted copy are counts over the original list |
| TriageTypes.Case.TurnaroundTime | rl_environment/envs/datatypes.py:20-23 | fails with "not completed" (carrying the case id) exactly when there is no completion time; otherwise arrival plus the result is the completion time |
| TriageTypes.Case.WaitTime | rl_environment/envs/datatypes.py:15-18 | for a completed case it equals the turnaround time; otherwise arrival plus the result is the current time |
| TriageTypes.WaitTimeFrozenOnCompletion | rl_environment/envs/datatypes.py:15-17 | once a case is completed its wait time is the same at every current time |
| TriageTypes.Case.IsSlaViolated | rl_environment/envs/datatypes.py:25-28 | false for an uncompleted case and for a non-urgent case; a completed case violates iff it is truly urgent and its turnaround exceeds the threshold |
| TriageTypes.SlaExample | rl_environment/envs/datatypes.py:25-28 | threshold 30: an urgent case from 0 to 45 violates, one from 0 to 20 does not |
| TriageTypes.P90Index | rl_environment/envs/datatypes.py:64 | the index is floor(9n/10) (10i <= 9n < 10(i+1)) and lies below n for a non-empty list |
| TriageTypes.EpisodeMetrics.UrgentMedianTat | rl_environment/envs/datatypes.py:51-58 | 0.0 for no urgent TATs; otherwise between the minimum and maximum urgent TAT, and a member of the list for an odd count |
| TriageTypes.MiddleWithinRange | rl_environment/envs/datatypes.py:55-58 | the median formula, applied to any permutation of a list, lies between the list's minimum and maximum and is an element of it for an odd length |
| TriageTypes.MedianOfAnySortedCopy | rl_environment/envs/datatypes.py:54-58 | the median is `Middle` of any ascending permutation of the urgent TATs: its middle element (odd count) or the mean of its two middle elements (even count) |
| TriageTypes.MedianSplits | rl_environment/envs/datatypes.py:51-58 | at least half of the urgent TATs are at or below the median and at least half at or above it |
| TriageTypes.EpisodeMetrics.UrgentP90Tat | rl_environment/envs/datatypes.py:60-65 | 0.0 for no urgent TATs; otherwise a member of the list, between its minimum and maximum |
| TriageTypes.P90OfAnySortedCopy | rl_environment/envs/datatypes.py:63-65 | the index int(0.9 n) is always in range, so the clamp never applies, and the result is the element at that index of any ascending permutation |
| TriageTypes.P90Covers | rl_environment/envs/datatypes.py:60-65 | more than 90% of the urgent TATs are at or below the 90th percentile |
| TriageTypes.MedianExample | rl_environment/envs/datatypes.py:51-58 | urgent TATs 10, 20, 30, 40 give median 25 |
| TriageTypes.P90Example | rl_environment/envs/datatypes.py:60-65 | urgent TATs 10, 20, 30, 40 give the 90th percentile 40, at index 3 |
| TriageTypes.EpisodeMetrics.SlaViolationRate | rl_environment/envs/datatypes.py:67-70 | 0.0 when there are no urgent cases; otherwise the rate times the urgent count is the violation count |
| TriageTypes.SlaViolationRateIsFraction | rl_environment/envs/datatypes.py:67-70 | with no more violations than urgent cases, the rate lies in [0, 1] |
| TriageTypes.EpisodeMetrics.Throughput | rl_environment/envs/datatypes.py:72-75 | 0.0 for a zero duration; otherwise throughput times duration (minutes) is 60 times the completed count |
| TriageTypes.ThroughputExample | rl_environment/envs/datatypes.py:72-75 | 12 cases over 60 minutes give 12.0 per hour |
| PatientSim.Patient.constructor | sim/patient.py:2-7 | id, severity and arrival time stored as given with no constraint; wait time 0; state waiting |
| DoctorSim.Doctor.constructor | sim/doctor.py:2-7 | id and treatment time (default 4) stored as given; the doctor is idle (not busy, no remaining time, no patient) and consistent |
| HospitalSim.TreatmentTimeOf | sim/hospital_env.py:37 | doctor i's treatment time is an entry of the configured list, entry i itself while i is within the list |
| HospitalSim.TreatmentTimesCycle | sim/hospital_env.py:36-38 | doctors i and i + len(list) get the same treatment time: the list is reused cyclically |
| HospitalSim.HospitalEnv.SpawnPatient | sim/hospital_env.py:48 | returns a fresh waiting patient with wait time 0, id from the patient-id counter (which advances by one) and arrival at the current time |
| HospitalSim.HospitalEnv.constructor | sim/hospital_env.py:6-48 | it stores the configuration as given. The clock is 0. There are max(num_doctors, 0) distinct fresh idle doctors; doctor i has id i and treatment time list[i % len]. The queue holds max(initial_numbers, 0) distinct fresh waiting patients, with ids 0.. in spawn order, so the id counter was 0 before the first spawn. No patients are done |

## Left out

- HospitalSim.HospitalEnv.SpawnPatient: the body of `_spawn_patient` is not part of this model. The model takes the id from `pid_counter` (the "patient id generator" of `sim/hospital_env.py:19`), stamps the current time, and takes the severity from a draw function passed to the constructor. That function stands for the random source; arrival probabilities and the severity distribution are not modelled.
- HospitalSim.HospitalEnv.constructor: takes one extra, name-only argument, the severity draw, for the reason above. Its clauses on the queued patients' ids (`queue[i].id == i`), arrival times (`arrivalTime == 0`) and severities, and `pidCounter == |queue|`, follow from the model's `SpawnPatient`, not from the source. The source shows only that the counter is 0 before the queue loop (`sim/hospital_env.py:20`) and that each entry comes from `_spawn_patient` (`sim/hospital_env.py:48`). A `num_doctors > 0` with an empty treatment-time list is excluded by a precondition, because the code would divide by zero there.
- Per-tick stepping, doctor assignment, treatment progression, completion handling, queue-capacity enforcement and the computation of `QueueStats`: none of these is in the code being modelled. `QueueStats` is a record with no operations, and no capacity invariant is claimed.
- Floating point: times, rates and thresholds are exact reals. `int(0.9 * n)` is the integer `(9 * n) / 10`; the two agree for every list length below 2^50. The double `0.9` is slightly above 9/10, so the rounded product never falls below the exact value's floor. The fractional part of 9n/10 is at most 0.9, and the rounding error at such lengths is far below 0.1, so the product never reaches the next integer either.
- The median and 90th-percentile functions sort a copy. In the model, metrics are immutable values, so "the list is unchanged" holds by construction and is not stated as a separate property.
- `extract_healthy_embeddings.py` and `cv/extract_embeddings.py` are not part of this model. They are neural-network inference, image and CSV I/O, and tensor arithmetic, whose scores reach the core only as opaque numbers (`pred_urgency`, `uncertainty`).
- Patient arrival times are integer ticks, as the environment's clock is. Python's dynamic typing of these fields is not modelled.
