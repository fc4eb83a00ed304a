/**
 * Host selection: the checks `testPing`, `testSSH`, `testArchOS`,
 * `testDeviceId`, `isFree` and `getPidOnHost`, the per-interface cascade of
 * `getAvailability`, and the flatten of `getAvailableHosts`.
 *
 * Everything the checks learn from the network is given data, bundled in an
 * `Env`: whether an address answers a ping, what `executeOnHost` of one
 * command on an address as a user resolves to, and when the SSH test of a
 * user on an address settles (which decides the user `Q.any` picks).
 */
module Availability {
  import opened Wrappers
  import opened Strings
  import opened Hosts

  /** How the promise of `executeOnHost([cmd], ip, user)` settles. */
  datatype ExecResult = Resolved(stdout: string) | Rejected(reason: string)

  /** The outcomes of ping, SSH and command runs, as given data. */
  datatype Env = Env(
    alive: string -> bool,
    exec: (string, string, User) -> ExecResult,
    settleTime: (string, User) -> nat)

  const EchoCommand: string := "echo \"hello\""
  const UnameCommand: string := "uname -om"

  /** The command `getPidOnHost` runs for a process name. */
  function PsCommand(procName: string): string {
    "ps aux | grep -v grep | grep " + procName
  }

  /** Why an interface was rejected; the source notifies a warning with it. */
  datatype CheckFailure =
    | Unreachable(ip: string)
    | MissingUserList(ip: string)
    | NoUserCanSsh(ip: string)
    | ExecError(reason: string)
    | WrongArchitecture(ip: string, arch: string, stdout: string)
    | WrongOS(ip: string, os: string, stdout: string)
    | WrongDeviceId(ip: string, deviceId: string, stdout: string)
    | Busy(ip: string, procName: string)

  /** The record `getAvailability` puts in a slot. */
  datatype Available = Available(host: Host, intf: Interface, user: User)

  /** What one interface's promise chain ends in. */
  datatype Outcome =
    | Found(record: Available)
    | NoUsers
    | Failed(failure: CheckFailure)

  // ---------------------------------------------------------------------
  // The individual checks
  // ---------------------------------------------------------------------

  /**
   * `testSSH(ip, user)` followed by `.then(() => user)`: the user when
   * `echo "hello"` runs, otherwise the rejection reason prefixed with who
   * could not log in where.
   */
  function TestSsh(env: Env, ip: string, user: User): (r: Result<User, string>)
    ensures r.Success? <==> env.exec(EchoCommand, ip, user).Resolved?
    ensures r.Success? ==> r.value == user
    ensures r.Failure? ==>
      r.error == user.name + "@" + ip + " not SSH-able: " + env.exec(EchoCommand, ip, user).reason
  {
    match env.exec(EchoCommand, ip, user)
    case Resolved(_) => Success(user)
    case Rejected(reason) => Failure(user.name + "@" + ip + " not SSH-able: " + reason)
  }

  /** The SSH test of `user` on `ip` succeeds. */
  predicate SshOk(env: Env, ip: string, user: User) {
    TestSsh(env, ip, user).Success?
  }

  /**
   * `testArchOS(arch, os, ip, user)`: `uname -om` must run and its output
   * must contain the architecture and then the OS; the architecture is
   * checked first.
   */
  function TestArchOS(env: Env, arch: string, os: string, ip: string, user: User): (r: Option<CheckFailure>)
    ensures r.None? <==>
      env.exec(UnameCommand, ip, user).Resolved? &&
      Contains(env.exec(UnameCommand, ip, user).stdout, arch) &&
      Contains(env.exec(UnameCommand, ip, user).stdout, os)
  {
    match env.exec(UnameCommand, ip, user)
    case Rejected(reason) => Some(ExecError(reason))
    case Resolved(stdout) =>
      if !Contains(stdout, arch) then Some(WrongArchitecture(ip, arch, stdout))
      else if !Contains(stdout, os) then Some(WrongOS(ip, os, stdout))
      else None
  }

  /** `testDeviceId(deviceId, deviceIdCommand, ip, user)`: the command's output must contain the id. */
  function TestDeviceId(env: Env, deviceId: string, deviceIdCommand: string, ip: string, user: User): (r: Option<CheckFailure>)
    ensures r.None? <==>
      env.exec(deviceIdCommand, ip, user).Resolved? &&
      Contains(env.exec(deviceIdCommand, ip, user).stdout, deviceId)
  {
    match env.exec(deviceIdCommand, ip, user)
    case Rejected(reason) => Some(ExecError(reason))
    case Resolved(stdout) =>
      if Contains(stdout, deviceId) then None else Some(WrongDeviceId(ip, deviceId, stdout))
  }

  /**
   * `getPidOnHost(procName, ip, user)`: run the `ps` pipeline and keep
   * whether its output matches the process name.
   */
  function GetPidOnHost(env: Env, procName: string, ip: string, user: User): (r: Result<bool, string>)
    ensures r.Success? <==> env.exec(PsCommand(procName), ip, user).Resolved?
    ensures r.Success? ==> (r.value <==> Contains(env.exec(PsCommand(procName), ip, user).stdout, procName))
  {
    match env.exec(PsCommand(procName), ip, user)
    case Rejected(reason) => Failure(reason)
    case Resolved(stdout) => Success(Contains(stdout, procName))
  }

  /** The first rejection among the `ps` runs, in list order (`Q.all` rejects). */
  function FirstPidError(env: Env, procs: seq<string>, ip: string, user: User): (r: Option<string>)
    ensures r.None? <==> forall p :: p in procs ==> GetPidOnHost(env, p, ip, user).Success?
    ensures r.Some? ==> exists p :: p in procs && GetPidOnHost(env, p, ip, user) == Failure(r.value)
  {
    if |procs| == 0 then None
    else match GetPidOnHost(env, procs[0], ip, user)
      case Failure(reason) => Some(reason)
      case Success(_) => FirstPidError(env, procs[1..], ip, user)
  }

  /** The first tracked process, in list order, whose `ps` output matches it (`forEach` throws). */
  function FirstRunning(env: Env, procs: seq<string>, ip: string, user: User): (r: Option<string>)
    requires forall p :: p in procs ==> GetPidOnHost(env, p, ip, user).Success?
    ensures r.Some? ==> r.value in procs && GetPidOnHost(env, r.value, ip, user).value
    ensures r.None? <==> forall p :: p in procs ==> !GetPidOnHost(env, p, ip, user).value
  {
    if |procs| == 0 then None
    else if GetPidOnHost(env, procs[0], ip, user).value then Some(procs[0])
    else FirstRunning(env, procs[1..], ip, user)
  }

  /**
   * `isFree(ip, user)` over the tracked process names: a rejected `ps` run
   * rejects the whole check before any output is looked at; otherwise the
   * host is busy when some output matches.
   */
  function IsFree(env: Env, procs: seq<string>, ip: string, user: User): (r: Option<CheckFailure>)
    ensures r.Some? ==> r.value.ExecError? || (r.value.Busy? && r.value.ip == ip && r.value.procName in procs)
    ensures r.Some? && r.value.ExecError? ==>
      exists p :: p in procs && env.exec(PsCommand(p), ip, user) == Rejected(r.value.reason)
  {
    match FirstPidError(env, procs, ip, user)
    case Some(reason) => Some(ExecError(reason))
    case None =>
      match FirstRunning(env, procs, ip, user)
      case Some(p) => Some(Busy(ip, p))
      case None => None
  }

  /** The host is free exactly when every `ps` run succeeds and none of them shows its process. */
  lemma IsFreeExactly(env: Env, procs: seq<string>, ip: string, user: User)
    ensures IsFree(env, procs, ip, user).None? <==>
      forall p :: p in procs ==>
        env.exec(PsCommand(p), ip, user).Resolved? &&
        !Contains(env.exec(PsCommand(p), ip, user).stdout, p)
  {
  }

  /** A busy report names a tracked process that its `ps` output shows, and no `ps` run was rejected. */
  lemma IsFreeBusy(env: Env, procs: seq<string>, ip: string, user: User)
    ensures IsFree(env, procs, ip, user).Some? && IsFree(env, procs, ip, user).value.Busy? ==>
      var p := IsFree(env, procs, ip, user).value.procName;
      p in procs && Contains(env.exec(PsCommand(p), ip, user).stdout, p) &&
      forall q :: q in procs ==> env.exec(PsCommand(q), ip, user).Resolved?
  {
  }

  /**
   * `Q.any` over the users' SSH tests: the first to succeed, that is the
   * successful user whose test settles earliest, the earlier in the list on
   * a tie.
   */
  function PickUser(env: Env, ip: string, users: seq<User>): (r: Option<User>)
    ensures r.Some? ==> r.value in users && SshOk(env, ip, r.value)
    ensures r.Some? ==> forall v :: v in users && SshOk(env, ip, v) ==>
      env.settleTime(ip, r.value) <= env.settleTime(ip, v)
    ensures r.None? <==> forall v :: v in users ==> !SshOk(env, ip, v)
  {
    if |users| == 0 then None
    else
      var rest := PickUser(env, ip, users[1..]);
      if !SshOk(env, ip, users[0]) then rest
      else if rest.Some? && env.settleTime(ip, rest.value) < env.settleTime(ip, users[0]) then rest
      else Some(users[0])
  }

  // ---------------------------------------------------------------------
  // getAvailability
  // ---------------------------------------------------------------------

  /** `checkTasks` defaults to true when it is not given. */
  function CheckTasks(checkTasks: Option<bool>): (r: bool)
    ensures r <==> checkTasks != Some(false)
  {
    match checkTasks
    case None => true
    case Some(b) => b
  }

  /**
   * The promise chain of one interface: ping, then `Q.any` of the users' SSH
   * tests, then architecture and OS, device id and, when asked, `isFree`.
   * A host without `Users` makes `host.Users.map` throw, which the chain's
   * `catch` reports. `Q.any` of no users resolves with nothing, which ends
   * the chain without a warning; `Q.any` of users that all fail rejects.
   */
  function Cascade(env: Env, procs: seq<string>, host: Host, intf: Interface, checkTasks: bool): (r: Outcome)
    ensures r == Failed(Unreachable(intf.ip)) <==> !env.alive(intf.ip)
    ensures env.alive(intf.ip) && host.users.None? ==> r == Failed(MissingUserList(intf.ip))
    ensures r.Found? ==> r.record.host == host && r.record.intf == intf
  {
    var ip := intf.ip;
    if !env.alive(ip) then Failed(Unreachable(ip))
    else if host.users.None? then Failed(MissingUserList(ip))
    else if |host.users.value| == 0 then NoUsers
    else match PickUser(env, ip, host.users.value)
      case None => Failed(NoUserCanSsh(ip))
      case Some(user) =>
        match TestArchOS(env, host.architecture, host.os, ip, user)
        case Some(f) => Failed(f)
        case None =>
          match TestDeviceId(env, host.deviceId, host.deviceIdCommand, ip, user)
          case Some(f) => Failed(f)
          case None =>
            if checkTasks && IsFree(env, procs, ip, user).Some? then Failed(IsFree(env, procs, ip, user).value)
            else Found(Available(host, intf, user))
  }

  /** All stages pass for `user` on `ip`, in the order the chain runs them. */
  predicate Passes(env: Env, procs: seq<string>, host: Host, ip: string, user: User, checkTasks: bool) {
    env.alive(ip) &&
    SshOk(env, ip, user) &&
    TestArchOS(env, host.architecture, host.os, ip, user).None? &&
    TestDeviceId(env, host.deviceId, host.deviceIdCommand, ip, user).None? &&
    (checkTasks ==> IsFree(env, procs, ip, user).None?)
  }

  /**
   * An interface yields a record exactly when the user `Q.any` picks passes
   * every stage; the record names that host, that interface and that user.
   * A later stage's failure for the picked user is not retried with any
   * other user.
   */
  lemma CascadeFound(env: Env, procs: seq<string>, host: Host, intf: Interface, checkTasks: bool)
    ensures Cascade(env, procs, host, intf, checkTasks).Found? <==>
      host.users.Some? && PickUser(env, intf.ip, host.users.value).Some? &&
      Passes(env, procs, host, intf.ip, PickUser(env, intf.ip, host.users.value).value, checkTasks)
    ensures Cascade(env, procs, host, intf, checkTasks).Found? ==>
      var rec := Cascade(env, procs, host, intf, checkTasks).record;
      host.users.Some? && rec.user in host.users.value &&
      Some(rec.user) == PickUser(env, intf.ip, host.users.value)
  {
  }

  /**
   * When `uname -om` does not show the architecture, the architecture is
   * what is reported, whether or not the OS shows.
   */
  lemma ArchitectureBeforeOS(env: Env, procs: seq<string>, host: Host, intf: Interface, checkTasks: bool)
    requires env.alive(intf.ip) && host.users.Some? && PickUser(env, intf.ip, host.users.value).Some?
    requires var out := env.exec(UnameCommand, intf.ip, PickUser(env, intf.ip, host.users.value).value);
      out.Resolved? && !Contains(out.stdout, host.architecture)
    ensures Cascade(env, procs, host, intf, checkTasks).Failed?
    ensures Cascade(env, procs, host, intf, checkTasks).failure.WrongArchitecture?
  {
  }

  /**
   * The chain ends without a record and without a warning only when the host
   * has a `Users` list and it is empty.
   */
  lemma NoUsersExactly(env: Env, procs: seq<string>, host: Host, intf: Interface, checkTasks: bool)
    ensures Cascade(env, procs, host, intf, checkTasks) == NoUsers <==>
      env.alive(intf.ip) && host.users == Some([])
  {
  }

  /**
   * `getAvailability(host, checkTasks)`: nothing when the host has no
   * `Interface_list`, otherwise one slot per interface, in order, holding
   * the record when the interface's chain yields one.
   */
  function GetAvailability(env: Env, procs: seq<string>, host: Host, checkTasks: Option<bool>): (r: Option<seq<Option<Available>>>)
    ensures r.None? <==> host.interfaces.None?
    ensures r.Some? ==> |r.value| == |host.interfaces.value|
    ensures r.Some? ==> forall j :: 0 <= j < |r.value| ==>
      var o := Cascade(env, procs, host, host.interfaces.value[j], CheckTasks(checkTasks));
      r.value[j] == (if o.Found? then Some(o.record) else None)
  {
    match host.interfaces
    case None => None
    case Some(intfs) =>
      Some(seq(|intfs|, j requires 0 <= j < |intfs| =>
        match Cascade(env, procs, host, intfs[j], CheckTasks(checkTasks))
        case Found(rec) => Some(rec)
        case _ => None))
  }

  // ---------------------------------------------------------------------
  // getAvailableHosts
  // ---------------------------------------------------------------------

  /** The records of a host's slots, in order, with the empty slots dropped. */
  function Present(slots: seq<Option<Available>>): (r: seq<Available>)
    ensures |r| <= |slots|
  {
    if |slots| == 0 then []
    else Present(slots[..|slots| - 1]) + (if slots[|slots| - 1].Some? then [slots[|slots| - 1].value] else [])
  }

  /** Why the flatten fails: `availArray[i].length` of a host without interfaces throws. */
  datatype FlattenError = MissingInterfaceList(hostIndex: nat)

  /**
   * Specification of the nested loops: the present records of every host
   * in order, or the first host whose slots are missing.
   */
  function Flatten(avail: seq<Option<seq<Option<Available>>>>): Result<seq<Available>, FlattenError> {
    if |avail| == 0 then Success([])
    else
      var n := |avail| - 1;
      match Flatten(avail[..n])
      case Failure(e) => Failure(e)
      case Success(xs) =>
        if avail[n].None? then Failure(MissingInterfaceList(n)) else Success(xs + Present(avail[n].value))
  }

  /** The number of slots across all hosts (each missing list counts zero). */
  function SlotCount(avail: seq<Option<seq<Option<Available>>>>): nat {
    if |avail| == 0 then 0
    else SlotCount(avail[..|avail| - 1]) + (if avail[|avail| - 1].Some? then |avail[|avail| - 1].value| else 0)
  }

  /** The slots of every host, in host order (`Q.all` of the `getAvailability` calls). */
  function AvailArray(env: Env, procs: seq<string>, hosts: seq<Host>, checkTasks: Option<bool>)
    : (r: seq<Option<seq<Option<Available>>>>)
    ensures |r| == |hosts|
    ensures forall i :: 0 <= i < |hosts| ==> r[i] == GetAvailability(env, procs, hosts[i], checkTasks)
  {
    seq(|hosts|, i requires 0 <= i < |hosts| => GetAvailability(env, procs, hosts[i], checkTasks))
  }

  /** `getAvailableHosts(hosts, checkTasks)`: get every host's slots, then flatten them. */
  method GetAvailableHosts(env: Env, procs: seq<string>, hosts: seq<Host>, checkTasks: Option<bool>)
    returns (r: Result<seq<Available>, FlattenError>)
    ensures r == Flatten(AvailArray(env, procs, hosts, checkTasks))
  {
    r := CollectHostsUp(AvailArray(env, procs, hosts, checkTasks));
  }

  /**
   * The callback on the host slots: push each present record in host order
   * and slot order; a host without slots stops it with a `TypeError`.
   */
  method CollectHostsUp(availArray: seq<Option<seq<Option<Available>>>>)
    returns (r: Result<seq<Available>, FlattenError>)
    ensures r == Flatten(availArray)
  {
    var hostsUp: seq<Available> := [];
    var i := 0;
    while i < |availArray|
      invariant 0 <= i <= |availArray|
      invariant Flatten(availArray[..i]) == Success(hostsUp)
    {
      if availArray[i].None? {
        assert availArray[..i + 1][..i] == availArray[..i];
        FlattenFailurePersists(availArray, i + 1);
        return Failure(MissingInterfaceList(i));
      }
      var slots := availArray[i].value;
      var j := 0;
      while j < |slots|
        invariant 0 <= j <= |slots|
        invariant hostsUp == Flatten(availArray[..i]).value + Present(slots[..j])
      {
        assert slots[..j + 1][..j] == slots[..j];
        if slots[j].Some? {
          hostsUp := hostsUp + [slots[j].value];
        }
        j := j + 1;
      }
      assert slots[..j] == slots;
      assert availArray[..i + 1][..i] == availArray[..i];
      i := i + 1;
    }
    assert availArray[..i] == availArray;
    return Success(hostsUp);
  }

  /** A failure in a prefix is the failure of the whole sequence. */
  lemma {:induction false} FlattenFailurePersists(avail: seq<Option<seq<Option<Available>>>>, k: nat)
    requires k <= |avail| && Flatten(avail[..k]).Failure?
    ensures Flatten(avail) == Flatten(avail[..k])
    decreases |avail| - k
  {
    if k < |avail| {
      assert avail[..k + 1][..k] == avail[..k];
      FlattenFailurePersists(avail, k + 1);
    } else {
      assert avail[..k] == avail;
    }
  }

  /** The flatten fails exactly when some host has no slots, and it names the first such host. */
  lemma {:induction false} FlattenFails(avail: seq<Option<seq<Option<Available>>>>)
    ensures Flatten(avail).Failure? <==> exists i :: 0 <= i < |avail| && avail[i].None?
    ensures Flatten(avail).Failure? ==>
      var i := Flatten(avail).error.hostIndex;
      i < |avail| && avail[i].None? && forall k :: 0 <= k < i ==> avail[k].Some?
  {
    if |avail| > 0 {
      var n := |avail| - 1;
      FlattenFails(avail[..n]);
      assert forall k :: 0 <= k < n ==> avail[..n][k] == avail[k];
    }
  }

  /** The flatten never adds a record: there are at most as many records as slots. */
  lemma {:induction false} FlattenLength(avail: seq<Option<seq<Option<Available>>>>)
    ensures Flatten(avail).Success? ==> |Flatten(avail).value| <= SlotCount(avail)
  {
    if |avail| > 0 {
      FlattenLength(avail[..|avail| - 1]);
    }
  }

  /** A record is in a host's present records exactly when some slot holds it. */
  lemma {:induction false} PresentMembers(slots: seq<Option<Available>>)
    ensures forall a :: a in Present(slots) <==> Some(a) in slots
  {
    if |slots| > 0 {
      var n := |slots| - 1;
      PresentMembers(slots[..n]);
      assert slots == slots[..n] + [slots[n]];
    }
  }

  /** The flatten keeps exactly the records in the slots: none is invented and none is dropped. */
  lemma {:induction false} FlattenMembers(avail: seq<Option<seq<Option<Available>>>>)
    ensures Flatten(avail).Success? ==> forall a ::
      a in Flatten(avail).value <==> exists i :: 0 <= i < |avail| && avail[i].Some? && Some(a) in avail[i].value
  {
    if |avail| > 0 && Flatten(avail).Success? {
      var n := |avail| - 1;
      FlattenMembers(avail[..n]);
      PresentMembers(avail[n].value);
      forall a
        ensures a in Flatten(avail).value <==> exists i :: 0 <= i < |avail| && avail[i].Some? && Some(a) in avail[i].value
      {
        if exists i :: 0 <= i < |avail| && avail[i].Some? && Some(a) in avail[i].value {
          var i :| 0 <= i < |avail| && avail[i].Some? && Some(a) in avail[i].value;
          if i < n {
            assert avail[..n][i] == avail[i];
          }
        }
        if a in Flatten(avail[..n]).value {
          var i :| 0 <= i < n && avail[..n][i].Some? && Some(a) in avail[..n][i].value;
          assert avail[..n][i] == avail[i];
        }
      }
    }
  }

  /** A host's interface whose chain yields a record, with that host's position. */
  predicate YieldedBy(env: Env, procs: seq<string>, hosts: seq<Host>, checkTasks: Option<bool>, a: Available) {
    exists i, j :: 0 <= i < |hosts| && hosts[i].interfaces.Some? && 0 <= j < |hosts[i].interfaces.value| &&
      Cascade(env, procs, hosts[i], hosts[i].interfaces.value[j], CheckTasks(checkTasks)) == Found(a)
  }

  /**
   * `getAvailableHosts` in the host catalogue's terms: when it succeeds, a
   * record is in the result exactly when it is the record of some host and
   * one of that host's interfaces whose chain yields it.
   */
  lemma AvailableHostsExactly(env: Env, procs: seq<string>, hosts: seq<Host>, checkTasks: Option<bool>)
    ensures var avail := AvailArray(env, procs, hosts, checkTasks);
      Flatten(avail).Success? ==> forall a :: a in Flatten(avail).value <==> YieldedBy(env, procs, hosts, checkTasks, a)
  {
    var avail := AvailArray(env, procs, hosts, checkTasks);
    FlattenMembers(avail);
    forall a | Flatten(avail).Success?
      ensures a in Flatten(avail).value <==> YieldedBy(env, procs, hosts, checkTasks, a)
    {
      SlotsAreYields(env, procs, hosts, checkTasks, a);
    }
  }

  /** A record sits in some host's slots exactly when some interface's chain yields it. */
  lemma SlotsAreYields(env: Env, procs: seq<string>, hosts: seq<Host>, checkTasks: Option<bool>, a: Available)
    ensures var avail := AvailArray(env, procs, hosts, checkTasks);
      (exists i :: 0 <= i < |avail| && avail[i].Some? && Some(a) in avail[i].value) <==>
      YieldedBy(env, procs, hosts, checkTasks, a)
  {
    var avail := AvailArray(env, procs, hosts, checkTasks);
    if exists i :: 0 <= i < |avail| && avail[i].Some? && Some(a) in avail[i].value {
      var i :| 0 <= i < |avail| && avail[i].Some? && Some(a) in avail[i].value;
      SlotYields(env, procs, hosts, checkTasks, a, i);
    }
    if YieldedBy(env, procs, hosts, checkTasks, a) {
      var i, j :| 0 <= i < |hosts| && hosts[i].interfaces.Some? && 0 <= j < |hosts[i].interfaces.value| &&
        Cascade(env, procs, hosts[i], hosts[i].interfaces.value[j], CheckTasks(checkTasks)) == Found(a);
      YieldFills(env, procs, hosts, checkTasks, a, i, j);
    }
  }

  lemma SlotYields(env: Env, procs: seq<string>, hosts: seq<Host>, checkTasks: Option<bool>, a: Available, i: nat)
    requires var avail := AvailArray(env, procs, hosts, checkTasks);
      i < |avail| && avail[i].Some? && Some(a) in avail[i].value
    ensures YieldedBy(env, procs, hosts, checkTasks, a)
  {
    var slots := GetAvailability(env, procs, hosts[i], checkTasks).value;
    var j :| 0 <= j < |slots| && slots[j] == Some(a);
    assert Cascade(env, procs, hosts[i], hosts[i].interfaces.value[j], CheckTasks(checkTasks)) == Found(a);
  }

  lemma YieldFills(env: Env, procs: seq<string>, hosts: seq<Host>, checkTasks: Option<bool>, a: Available, i: nat, j: nat)
    requires i < |hosts| && hosts[i].interfaces.Some? && j < |hosts[i].interfaces.value|
    requires Cascade(env, procs, hosts[i], hosts[i].interfaces.value[j], CheckTasks(checkTasks)) == Found(a)
    ensures var avail := AvailArray(env, procs, hosts, checkTasks);
      avail[i].Some? && Some(a) in avail[i].value
  {
    var slots := GetAvailability(env, procs, hosts[i], checkTasks).value;
    assert slots[j] == Some(a);
  }

  /** The number of interfaces across all hosts that list them. */
  function InterfaceCount(hosts: seq<Host>): nat {
    if |hosts| == 0 then 0
    else
      var h := hosts[|hosts| - 1];
      InterfaceCount(hosts[..|hosts| - 1]) + (if h.interfaces.Some? then |h.interfaces.value| else 0)
  }

  /** `getAvailableHosts` never returns more records than there are interfaces. */
  lemma AvailableHostsBound(env: Env, procs: seq<string>, hosts: seq<Host>, checkTasks: Option<bool>)
    ensures var avail := AvailArray(env, procs, hosts, checkTasks);
      Flatten(avail).Success? ==> |Flatten(avail).value| <= InterfaceCount(hosts)
  {
    FlattenLength(AvailArray(env, procs, hosts, checkTasks));
    SlotsPerInterface(env, procs, hosts, checkTasks);
  }

  lemma {:induction false} SlotsPerInterface(env: Env, procs: seq<string>, hosts: seq<Host>, checkTasks: Option<bool>)
    ensures SlotCount(AvailArray(env, procs, hosts, checkTasks)) == InterfaceCount(hosts)
  {
    if |hosts| > 0 {
      var n := |hosts| - 1;
      SlotsPerInterface(env, procs, hosts[..n], checkTasks);
      assert AvailArray(env, procs, hosts, checkTasks)[..n] == AvailArray(env, procs, hosts[..n], checkTasks);
    }
  }
}
