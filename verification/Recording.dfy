/** One run as the checks see it: the request log, the observed versions and the
    timeline of ops, checkpoints, faults and exits.
 */
module Recording {
  import opened Instants

  datatype Key = Key(kind: string, namespace: string, name: string)

  /** One state an object passed through. `terminating` says it carries a deletion
      timestamp; `deleted` marks the object's last version. */
  datatype Version = Version(
    key: Key, uid: string, resourceVersion: string, time: Instant,
    finalizers: seq<string>, terminating: bool, deleted: bool)

  /** The status is 0 until the API server has answered, and for good where the
      proxy dropped the connection. */
  datatype Request = Request(
    start: Instant, verb: string, group: string, resource: string, status: int, dropped: bool)

  datatype SettleResult = NoSettle | Converged | Expired

  datatype Checkpoint = Checkpoint(op: int, began: Instant, time: Instant, settle: SettleResult)

  /** A period in which a fault was active. A zero end means it still is. */
  datatype FaultWindow = FaultWindow(start: Instant, end: Instant) {
    predicate Overlaps(from: Instant, to: Instant) {
      start <= to && (end == ZERO || end > from)
    }

    /** What of the window is known at t: an end after t has not come. */
    function AsOf(t: Instant): FaultWindow {
      if end > t then FaultWindow(start, ZERO) else this
    }
  }

  datatype Exit = Exit(at: Instant, restart: Instant)

  datatype Op = Op(index: int, restarts: bool, time: Instant)

  const DEFAULT_TIMEOUTS := Timeouts(30 * SECOND, 10 * SECOND, 60 * SECOND)

  /** The history is the log of versions in the order recorded. A run with no
      history is one whose log is empty. */
  datatype Input = Input(
    declared: Timeouts, primary: string, requests: seq<Request>, history: seq<Version>,
    ops: seq<Op>, checkpoints: seq<Checkpoint>, faults: seq<FaultWindow>, exits: seq<Exit>, end: Instant)
  {
    /** The target's timeouts, with the defaults wherever it declares none. */
    function Settle(): (d: Duration) ensures d > 0 {
      if declared.settle <= 0 then DEFAULT_TIMEOUTS.settle else declared.settle
    }

    function Delete(): (d: Duration) ensures d > 0 {
      if declared.delete <= 0 then DEFAULT_TIMEOUTS.delete else declared.delete
    }

    /** The instant the run stops being observed. */
    function End(): Instant {
      if end != ZERO then end
      else if |checkpoints| > 0 then checkpoints[|checkpoints| - 1].time
      else ZERO
    }

    /** What the Runner hands over: windows of faults the proxy applied, and
        restarts that come after the zero time. */
    ghost predicate Recorded() {
      && (forall f :: f in faults ==> f.start > ZERO)
      && (forall e :: e in exits ==> e.restart >= ZERO)
    }
  }
}
