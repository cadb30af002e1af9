/** The per-event particle record that the decay-chain resolver reads.

    One simulated event stores its particles as three parallel arrays: the
    particle-type code (PDG id) and the index of the first and of the second
    daughter. The resolver only reads them. Every read goes through a
    bounds-checked accessor; a read outside [0, N) is the failure
    IndexOutOfRange, never a silent value.
 */
module DecayRecord {

  /** The raw arrays `Particle.PID`, `Particle.D1` and `Particle.D2` of one event. */
  datatype Arrays = Arrays(pid: seq<int>, d1: seq<int>, d2: seq<int>)

  /** An event record: the three arrays have one common length N. */
  type Event = e: Arrays | |e.pid| == |e.d1| == |e.d2| witness Arrays([], [], [])

  /** The number N of particles in the record. */
  function Size(e: Event): nat {
    |e.pid|
  }

  /** Every way in which resolving one event can fail. */
  datatype Error =
    | IndexOutOfRange(index: int)   // a read of PID, D1 or D2 at an index outside [0, N)
    | SelfDecayCycle                // the same-PID first-daughter walk never leaves the chain
    | NotUnique                     // "Particle not unique"
    | NoWBoson                      // "No W quark found in decay of top quark"
    | TwoLeptonic                   // "Two leptonic top quarks"
    | TwoHadronic                   // "Two hadronic top quarks"
    | NotValidDecay                 // "Not Valid Decay for W quark"

  /** A value, or the error that stopped the computation. */
  datatype Result<T> = Ok(value: T) | Err(error: Error) {
    predicate IsFailure() {
      Err?
    }

    function PropagateFailure<U>(): Result<U>
      requires Err?
    {
      Err(error)
    }

    function Extract(): T
      requires Ok?
    {
      value
    }
  }

  predicate InRange(e: Event, i: int) {
    0 <= i < |e.pid|
  }

  /** `Particle.PID` at index i. */
  function Pid(e: Event, i: int): (r: Result<int>)
    ensures r.Ok? <==> InRange(e, i)
    ensures r.Ok? ==> r.value == e.pid[i]
    ensures r.Err? ==> r.error == IndexOutOfRange(i)
  {
    if InRange(e, i) then Ok(e.pid[i]) else Err(IndexOutOfRange(i))
  }

  /** `Particle.D1` at index i: the first daughter. */
  function D1(e: Event, i: int): (r: Result<int>)
    ensures r.Ok? <==> InRange(e, i)
    ensures r.Ok? ==> r.value == e.d1[i]
    ensures r.Err? ==> r.error == IndexOutOfRange(i)
  {
    if InRange(e, i) then Ok(e.d1[i]) else Err(IndexOutOfRange(i))
  }

  /** `Particle.D2` at index i: the second daughter. */
  function D2(e: Event, i: int): (r: Result<int>)
    ensures r.Ok? <==> InRange(e, i)
    ensures r.Ok? ==> r.value == e.d2[i]
    ensures r.Err? ==> r.error == IndexOutOfRange(i)
  {
    if InRange(e, i) then Ok(e.d2[i]) else Err(IndexOutOfRange(i))
  }

  /** Magnitude of a type code, as `np.abs`. */
  function Abs(x: int): nat {
    if x < 0 then -x else x
  }
}
