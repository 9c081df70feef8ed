/** A unit's configuration and the service object that carries its run-time state
    (struct libsystemd_service, app/libsystemd/src/serviceapi.c:52-72). */
module Services {
  import opened Wrappers

  datatype UnitType = Simple | Oneshot | Library

  datatype RestartPolicy = Never | Always | OnFailure

  /** What is read from a unit file. source is the mount point the unit comes from, or None for the scanned
      directory. */
  datatype Unit = Unit(
    name: string,
    unitType: UnitType,
    restart: RestartPolicy,
    fromTemplate: bool,
    exec: string,
    argv: seq<string>,
    required: seq<string>,
    after: seq<string>,
    source: Option<string>)

  /** A parsed timeout in milliseconds: a C int that is not negative. */
  type StopTimeout = n: nat | n <= 0x7FFF_FFFF

  const DEFAULT_STOP_TIMEOUT: StopTimeout := 3000

  class Service {
    const unit: Unit
    const stopTimeout: StopTimeout
    var startingOrder: int
    var pid: int
    var lastPid: int
    var exitHandle: Option<nat>
    var libraryStarted: bool

    constructor (unit: Unit, stopTimeout: StopTimeout)
      ensures this.unit == unit && this.stopTimeout == stopTimeout && startingOrder == 0 && pid == -1 && lastPid == -1
      ensures exitHandle == None && !libraryStarted
    {
      this.unit := unit;
      this.stopTimeout := stopTimeout;
      startingOrder := 0;
      pid, lastPid, exitHandle := -1, -1, None;
      libraryStarted := false;
    }
  }
}
