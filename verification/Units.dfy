/** The unit table of the service supervisor (apps/init.c). What a unit file
    configures is kept apart from what the supervisor updates, since nothing but
    a reload changes the former. */
module Units {
  datatype Kind = Sysinit | Service | Respawn | Once
  datatype State = Stopped | Starting | Running | Waiting | Exited | Failed | Disabled
  datatype Policy = Never | OnFailure | Always

  /** after= and requires= are split into names. */
  datatype Config = Config(name: string, kind: Kind, after: seq<string>, needs: seq<string>, ready: bool)

  datatype Unit = Unit(
    state: State,
    respawn: Policy,
    enabled: bool,
    pid: int,
    restarts: nat,
    exitCode: int,
    fails: nat,
    winOpen: bool,
    winStart: nat,
    backoff: nat,
    nextStart: nat,
    startMs: nat,
    stopping: bool,
    restartPending: bool,
    dependencyFailed: bool,
    guard: bool,
    seqNo: nat,
    order: int)

  /** find_unit: the first unit with this name, or -1. */
  function Find(cfg: seq<Config>, name: string): (i: int)
    ensures -1 <= i < |cfg|
    ensures i >= 0 ==> cfg[i].name == name && forall j :: 0 <= j < i ==> cfg[j].name != name
    ensures i < 0 ==> forall j :: 0 <= j < |cfg| ==> cfg[j].name != name
  {
    if cfg == [] then -1
    else if cfg[0].name == name then 0
    else
      var i := Find(cfg[1..], name);
      if i < 0 then -1 else i + 1
  }

  predicate IsService(cfg: seq<Config>, u: int) {
    0 <= u < |cfg| && cfg[u].kind == Service
  }

  /** `name` resolves to a service other than `u`. */
  predicate Resolves(cfg: seq<Config>, u: int, name: string) {
    var d := Find(cfg, name);
    d != u && IsService(cfg, d)
  }

  predicate Satisfied(v: Unit) {
    v.state == Running || (v.state == Exited && v.exitCode == 0 && v.respawn == Never)
  }

  predicate Active(v: Unit) {
    v.state == Running || v.state == Starting || v.state == Waiting
  }

  method FindUnit(cfg: seq<Config>, name: string) returns (i: int)
    ensures i == Find(cfg, name)
  {
    i := 0;
    while i < |cfg|
      invariant 0 <= i <= |cfg|
      invariant forall j :: 0 <= j < i ==> cfg[j].name != name
    {
      if cfg[i].name == name {
        return;
      }
      i := i + 1;
    }
    return -1;
  }
}
