/** Works as the miner loops handle them: pointers to them, and logs of what happened to them. */
module Works {
  /** A pointer to a work. */
  datatype WorkPtr = Null | Work(id: nat)

  /** The works that something has happened to, in order. */
  datatype Log = Nothing | Entry(earlier: Log, id: nat)

  /** The log with the work a pointer points to, if it does. */
  function Enter(log: Log, w: WorkPtr): Log {
    if w.Work? then Entry(log, w.id) else log
  }

  /** What a fetch of work gives: none, which get_work as it stands never does; one that the driver cannot prepare;
      or one. */
  datatype Fetch = NoWork | Unprepared | Prepared

  function Times(log: Log, x: nat): nat {
    match log
    case Nothing => 0
    case Entry(earlier, id) => Times(earlier, x) + if id == x then 1 else 0
  }

  function Held(w: WorkPtr, x: nat): nat {
    if w == Work(x) then 1 else 0
  }

  lemma {:induction false} EnterTimes(log: Log, w: WorkPtr, x: nat)
    ensures Times(Enter(log, w), x) == Times(log, x) + Held(w, x)
  {
  }
}
