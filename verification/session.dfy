/**
 * The result handling of `executeOnHost` and `deployOnHost`: the command
 * batch each sends, and the output record and settle-once deferred that the
 * connection and stream callbacks update.
 *
 * Each callback is one event. A `Session` object holds the variables the
 * callbacks share (`remote_stdout`, `remote_stderr`, the `output` record and
 * the deferred); `Handle` runs the callback for one event. The ghost
 * `events` field records the events handled so far, and `Valid` ties every
 * field to a function of that history; the properties of a session are
 * lemmas about those functions.
 */
module Session {
  import opened Wrappers
  import opened Strings
  import opened Hosts

  // ---------------------------------------------------------------------
  // The command batch
  // ---------------------------------------------------------------------

  /** The caller's `cmds` array, which both functions extend in place. */
  class CommandList {
    var items: seq<string>

    constructor (items: seq<string>)
      ensures this.items == items
    {
      this.items := items;
    }

    /**
     * `cmds.push('exit\n'); var cmdString = cmds.join('\n');`: the caller's
     * array grows by exactly that element, and the batch is the joined array.
     */
    method PushExitAndJoin() returns (cmdString: string)
      modifies this
      ensures items == old(items) + ["exit\n"]
      ensures cmdString == Join(items, "\n")
      ensures cmdString == Terminated(old(items)) + "exit\n"
    {
      JoinWithExit(items);
      items := items + ["exit\n"];
      cmdString := Join(items, "\n");
    }
  }

  /** Every command followed by a newline, in order. */
  function Terminated(cmds: seq<string>): string {
    if |cmds| == 0 then "" else cmds[0] + "\n" + Terminated(cmds[1..])
  }

  /** The batch sent is `c1\n...\ncn\nexit\n`: each command on its own line, then `exit`. */
  lemma JoinWithExit(cmds: seq<string>)
    ensures Join(cmds + ["exit\n"], "\n") == Terminated(cmds) + "exit\n"
  {
    JoinWithLast(cmds, "exit\n");
  }

  lemma {:induction false} JoinWithLast(cmds: seq<string>, last: string)
    ensures Join(cmds + [last], "\n") == Terminated(cmds) + last
  {
    if |cmds| == 0 {
      assert cmds + [last] == [last];
    } else {
      var rest := cmds[1..];
      JoinWithLast(rest, last);
      assert (cmds + [last])[1..] == rest + [last];
      calc {
        Join(cmds + [last], "\n");
        cmds[0] + "\n" + Join(rest + [last], "\n");
        cmds[0] + "\n" + (Terminated(rest) + last);
        (cmds[0] + "\n" + Terminated(rest)) + last;
      }
    }
  }

  // ---------------------------------------------------------------------
  // Events and the session configuration
  // ---------------------------------------------------------------------

  /** One callback invocation. */
  datatype Event =
    | StdoutData(chunk: string)                   // the stream's `data` event
    | StderrData(chunk: string)                   // the stream's stderr `data` event
    | Close(code: int, signal: Option<string>)   // the stream's `close` event
    | ConnectionError(err: string)                // the connection's `error` event
    | ChannelError(err: string)                   // `err` passed to the `exec` or `shell` callback
    | SetupError(err: string)                     // an exception caught by the surrounding `try`

  /**
   * `executeOnHost` with its optional callbacks (`None` where the caller
   * passes none: the default `stderrCB` returns nothing, and a missing
   * `stdoutCB` is never called), or `deployOnHost`.
   */
  datatype Mode =
    | Executor(stdoutCB: Option<string -> bool>, stderrCB: Option<string -> bool>)
    | Deployer

  /**
   * What a session is started with. `strip` is what the close handler does
   * to the collected stdout: remove the prompt and the echoed commands.
   */
  datatype Config = Config(mode: Mode, ip: string, user: User, strip: string -> string)

  /** The `output` record. */
  datatype Output = Output(
    user: User, ip: string, returnCode: int, signal: Option<string>, stdout: string, stderr: string)

  /** The state of the deferred. */
  datatype Settlement = Pending | Resolved(output: Output) | Rejected(reason: string)

  // ---------------------------------------------------------------------
  // Specification: the fields as functions of the events handled
  // ---------------------------------------------------------------------

  function Last(es: seq<Event>): Event
    requires |es| > 0
  {
    es[|es| - 1]
  }

  function Init(es: seq<Event>): seq<Event>
    requires |es| > 0
  {
    es[..|es| - 1]
  }

  /** `remote_stdout`: the stdout chunks received, in order. */
  function StdoutOf(es: seq<Event>): string {
    if |es| == 0 then ""
    else StdoutOf(Init(es)) + (if Last(es).StdoutData? then Last(es).chunk else "")
  }

  /** `remote_stderr`: the stderr chunks received, in order. */
  function StderrOf(es: seq<Event>): string {
    if |es| == 0 then ""
    else StderrOf(Init(es)) + (if Last(es).StderrData? then Last(es).chunk else "")
  }

  /** The record as first built. */
  function InitialOutput(cfg: Config): Output {
    Output(cfg.user, cfg.ip, -1, None, "", "")
  }

  /** `output`: set by the latest `close`, as built before any `close`. */
  function OutputOf(cfg: Config, es: seq<Event>): Output {
    if |es| == 0 then InitialOutput(cfg)
    else match Last(es)
      case Close(code, signal) =>
        Output(cfg.user, cfg.ip, code, signal, cfg.strip(StdoutOf(Init(es))), StderrOf(Init(es)))
      case _ => OutputOf(cfg, Init(es))
  }

  /**
   * What the callback for the last event of `es` asks of the deferred,
   * given everything before it.
   */
  function Request(cfg: Config, es: seq<Event>): (r: Settlement)
    requires |es| > 0
    ensures Last(es).StdoutData? ==>
      r == (if cfg.mode.Executor? && cfg.mode.stdoutCB.Some? && cfg.mode.stdoutCB.value(Last(es).chunk)
            then Rejected(Last(es).chunk) else Pending)
    ensures Last(es).StderrData? ==>
      r == (if cfg.mode.Deployer? || (cfg.mode.stderrCB.Some? && cfg.mode.stderrCB.value(Last(es).chunk))
            then Rejected(Last(es).chunk) else Pending)
    ensures Last(es).ConnectionError? ==> r == Rejected("Couldnt connect to " + cfg.ip + ": " + Last(es).err)
    ensures Last(es).ChannelError? ==>
      r == (if cfg.mode.Executor? then Rejected("SSH2 Exec error: " + Last(es).err) else Pending)
    ensures Last(es).SetupError? && cfg.mode.Executor? ==>
      r == Rejected("Couldnt execute on " + cfg.ip + ": " + Last(es).err)
    ensures Last(es).SetupError? && cfg.mode.Deployer? ==>
      r == Rejected("Couldnt deploy onto: " + cfg.ip + ": " + Last(es).err)
    ensures r.Resolved? <==> Last(es).Close?
    ensures r.Resolved? ==>
      r.output.returnCode == Last(es).code && r.output.signal == Last(es).signal &&
      r.output.stdout == cfg.strip(StdoutOf(Init(es))) && r.output.stderr == StderrOf(Init(es))
    ensures r.Pending? ==>
      Last(es).StdoutData? || Last(es).StderrData? || (Last(es).ChannelError? && cfg.mode.Deployer?)
  {
    match Last(es)
    case StdoutData(chunk) =>
      if cfg.mode.Executor? && cfg.mode.stdoutCB.Some? && cfg.mode.stdoutCB.value(chunk) then Rejected(chunk)
      else Pending
    case StderrData(chunk) =>
      if cfg.mode.Deployer? || (cfg.mode.stderrCB.Some? && cfg.mode.stderrCB.value(chunk)) then Rejected(chunk)
      else Pending
    case Close(_, _) => Resolved(OutputOf(cfg, es))
    case ConnectionError(err) => Rejected("Couldnt connect to " + cfg.ip + ": " + err)
    case ChannelError(err) =>
      if cfg.mode.Executor? then Rejected("SSH2 Exec error: " + err) else Pending
    case SetupError(err) =>
      if cfg.mode.Executor? then Rejected("Couldnt execute on " + cfg.ip + ": " + err)
      else Rejected("Couldnt deploy onto: " + cfg.ip + ": " + err)
  }

  /** The deferred: the first request that settles it wins; later ones are ignored. */
  function SettlementOf(cfg: Config, es: seq<Event>): Settlement {
    if |es| == 0 then Pending
    else if SettlementOf(cfg, Init(es)).Pending? then Request(cfg, es)
    else SettlementOf(cfg, Init(es))
  }

  /**
   * The deferred is pending exactly while no callback has asked to settle
   * it, and otherwise holds what the first such callback asked for.
   */
  lemma {:induction false} FirstSettlingRequest(cfg: Config, es: seq<Event>)
    ensures SettlementOf(cfg, es).Pending? <==> forall k :: 1 <= k <= |es| ==> Request(cfg, es[..k]).Pending?
    ensures !SettlementOf(cfg, es).Pending? ==> exists k :: (1 <= k <= |es| &&
      SettlementOf(cfg, es) == Request(cfg, es[..k]) && forall j :: 1 <= j < k ==> Request(cfg, es[..j]).Pending?)
  {
    if |es| > 0 {
      FirstSettlingRequest(cfg, Init(es));
      assert es[..|es|] == es;
      assert forall k :: 0 <= k < |es| ==> Init(es)[..k] == es[..k];
    }
  }

  // ---------------------------------------------------------------------
  // The session object
  // ---------------------------------------------------------------------

  class Session {
    const cfg: Config
    var remoteStdout: string
    var remoteStderr: string
    var output: Output
    var settlement: Settlement
    ghost var events: seq<Event>

    ghost predicate Valid()
      reads this
    {
      remoteStdout == StdoutOf(events) &&
      remoteStderr == StderrOf(events) &&
      output == OutputOf(cfg, events) &&
      settlement == SettlementOf(cfg, events)
    }

    /** The variables as `executeOnHost` and `deployOnHost` set them up. */
    constructor (cfg: Config)
      ensures Valid() && this.cfg == cfg && events == []
      ensures output.returnCode == -1 && output.signal.None? && settlement.Pending?
    {
      this.cfg := cfg;
      remoteStdout := "";
      remoteStderr := "";
      output := InitialOutput(cfg);
      settlement := Pending;
      events := [];
    }

    /** `deferred.resolve` or `deferred.reject`: only the first call has an effect. */
    method Settle(s: Settlement)
      modifies this
      ensures settlement == (if old(settlement).Pending? then s else old(settlement))
      ensures remoteStdout == old(remoteStdout) && remoteStderr == old(remoteStderr)
      ensures output == old(output) && events == old(events)
    {
      if settlement.Pending? {
        settlement := s;
      }
    }

    /** Run the callback for one event. */
    method Handle(e: Event)
      requires Valid()
      modifies this
      ensures Valid() && events == old(events) + [e]
      ensures remoteStdout == old(remoteStdout) + (if e.StdoutData? then e.chunk else "")
      ensures remoteStderr == old(remoteStderr) + (if e.StderrData? then e.chunk else "")
      ensures !old(settlement).Pending? ==> settlement == old(settlement)
    {
      ghost var es := events + [e];
      assert Init(es) == events && Last(es) == e;
      assert SettlementOf(cfg, es) ==
        (if SettlementOf(cfg, events).Pending? then Request(cfg, es) else SettlementOf(cfg, events));
      assert StdoutOf(es) == StdoutOf(events) + (if e.StdoutData? then e.chunk else "");
      assert StderrOf(es) == StderrOf(events) + (if e.StderrData? then e.chunk else "");
      match e {
        case StdoutData(chunk) =>
          remoteStdout := remoteStdout + chunk;
          if cfg.mode.Executor? && cfg.mode.stdoutCB.Some? && cfg.mode.stdoutCB.value(chunk) {
            Settle(Rejected(chunk));
          }
        case StderrData(chunk) =>
          remoteStderr := remoteStderr + chunk;
          if cfg.mode.Deployer? || (cfg.mode.stderrCB.Some? && cfg.mode.stderrCB.value(chunk)) {
            Settle(Rejected(chunk));
          }
        case Close(code, signal) =>
          output := Output(cfg.user, cfg.ip, code, signal, cfg.strip(remoteStdout), remoteStderr);
          Settle(Resolved(output));
        case ConnectionError(err) =>
          Settle(Rejected("Couldnt connect to " + cfg.ip + ": " + err));
        case ChannelError(err) =>
          if cfg.mode.Executor? {
            Settle(Rejected("SSH2 Exec error: " + err));
          }
        case SetupError(err) =>
          if cfg.mode.Executor? {
            Settle(Rejected("Couldnt execute on " + cfg.ip + ": " + err));
          } else {
            Settle(Rejected("Couldnt deploy onto: " + cfg.ip + ": " + err));
          }
      }
      events := es;
    }
  }

  /**
   * The start of `executeOnHost(cmds, ...)` or `deployOnHost(cmds, ...)`:
   * extend the caller's array, build the batch, and set up the variables.
   */
  method Start(cmds: CommandList, cfg: Config) returns (session: Session, cmdString: string)
    modifies cmds
    ensures cmds.items == old(cmds.items) + ["exit\n"]
    ensures cmdString == Terminated(old(cmds.items)) + "exit\n"
    ensures fresh(session) && session.Valid() && session.cfg == cfg && session.events == []
  {
    cmdString := cmds.PushExitAndJoin();
    session := new Session(cfg);
  }

  // ---------------------------------------------------------------------
  // Properties of a session
  // ---------------------------------------------------------------------

  /** Accumulation: the stdout collected over two stretches of events is the two collections joined. */
  lemma {:induction false} StdoutOfAppend(a: seq<Event>, b: seq<Event>)
    ensures StdoutOf(a + b) == StdoutOf(a) + StdoutOf(b)
    decreases |b|
  {
    if |b| == 0 {
      assert a + b == a;
    } else {
      StdoutOfAppend(a, Init(b));
      assert Init(a + b) == a + Init(b) && Last(a + b) == Last(b);
    }
  }

  /** Accumulation: the same for stderr. */
  lemma {:induction false} StderrOfAppend(a: seq<Event>, b: seq<Event>)
    ensures StderrOf(a + b) == StderrOf(a) + StderrOf(b)
    decreases |b|
  {
    if |b| == 0 {
      assert a + b == a;
    } else {
      StderrOfAppend(a, Init(b));
      assert Init(a + b) == a + Init(b) && Last(a + b) == Last(b);
    }
  }

  /** The stdout collected is the concatenation of the stdout chunks, in order, and nothing else. */
  lemma {:induction false} StdoutOfChunks(chunks: seq<string>)
    ensures StdoutOf(seq(|chunks|, i requires 0 <= i < |chunks| => StdoutData(chunks[i]))) == Concat(chunks)
  {
    var es := seq(|chunks|, i requires 0 <= i < |chunks| => StdoutData(chunks[i]));
    if |chunks| > 0 {
      var rest := seq(|chunks| - 1, i requires 0 <= i < |chunks| - 1 => StdoutData(chunks[1..][i]));
      StdoutOfChunks(chunks[1..]);
      assert es == [StdoutData(chunks[0])] + rest;
      StdoutOfAppend([StdoutData(chunks[0])], rest);
      assert StdoutOf([StdoutData(chunks[0])]) == chunks[0] by {
        assert Init([StdoutData(chunks[0])]) == [];
      }
    }
  }

  /** Before any `close`, `returnCode` is -1, `signal` is unset and the output texts are empty. */
  lemma {:induction false} OutputBeforeClose(cfg: Config, es: seq<Event>)
    requires forall i :: 0 <= i < |es| ==> !es[i].Close?
    ensures OutputOf(cfg, es) == InitialOutput(cfg)
    ensures OutputOf(cfg, es).returnCode == -1 && OutputOf(cfg, es).signal.None?
  {
    if |es| > 0 {
      OutputBeforeClose(cfg, Init(es));
    }
  }

  /**
   * A `close` sets the code and signal it carries, the stripped stdout and
   * the stderr exactly as received.
   */
  lemma OutputAtClose(cfg: Config, es: seq<Event>, code: int, signal: Option<string>)
    ensures var out := OutputOf(cfg, es + [Close(code, signal)]);
      out.returnCode == code && out.signal == signal &&
      out.stdout == cfg.strip(StdoutOf(es)) && out.stderr == StderrOf(es) &&
      out.user == cfg.user && out.ip == cfg.ip
  {
    assert Init(es + [Close(code, signal)]) == es;
  }

  /** Settle once: once the deferred is settled, no further event changes it. */
  lemma {:induction false} SettledStays(cfg: Config, a: seq<Event>, b: seq<Event>)
    requires !SettlementOf(cfg, a).Pending?
    ensures SettlementOf(cfg, a + b) == SettlementOf(cfg, a)
    decreases |b|
  {
    if |b| == 0 {
      assert a + b == a;
    } else {
      SettledStays(cfg, a, Init(b));
      assert Init(a + b) == a + Init(b);
    }
  }

  /**
   * The outcome is decided by the first event whose callback settles the
   * deferred: while the deferred is pending, it settles exactly as that
   * event asks.
   */
  lemma FirstRequestDecides(cfg: Config, a: seq<Event>, e: Event, b: seq<Event>)
    requires SettlementOf(cfg, a).Pending? && !Request(cfg, a + [e]).Pending?
    ensures SettlementOf(cfg, a + [e] + b) == Request(cfg, a + [e])
  {
    assert Init(a + [e]) == a;
    SettledStays(cfg, a + [e], b);
  }

  /**
   * Abort: when the executor's `stdoutCB` is truthy on a chunk that arrives
   * while the deferred is pending, the session rejects with that chunk,
   * whatever comes after it, a `close` included.
   */
  lemma StdoutCallbackAborts(cfg: Config, a: seq<Event>, chunk: string, b: seq<Event>)
    requires cfg.mode.Executor? && cfg.mode.stdoutCB.Some? && cfg.mode.stdoutCB.value(chunk)
    requires SettlementOf(cfg, a).Pending?
    ensures SettlementOf(cfg, a + [StdoutData(chunk)] + b) == Rejected(chunk)
  {
    assert Last(a + [StdoutData(chunk)]) == StdoutData(chunk);
    FirstRequestDecides(cfg, a, StdoutData(chunk), b);
  }

  /**
   * Abort: when the executor's `stderrCB` is truthy on a chunk that arrives
   * while the deferred is pending, the session rejects with that chunk,
   * whatever comes after it.
   */
  lemma StderrCallbackAborts(cfg: Config, a: seq<Event>, chunk: string, b: seq<Event>)
    requires cfg.mode.Executor? && cfg.mode.stderrCB.Some? && cfg.mode.stderrCB.value(chunk)
    requires SettlementOf(cfg, a).Pending?
    ensures SettlementOf(cfg, a + [StderrData(chunk)] + b) == Rejected(chunk)
  {
    assert Last(a + [StderrData(chunk)]) == StderrData(chunk);
    FirstRequestDecides(cfg, a, StderrData(chunk), b);
  }

  /** Abort: the deployer rejects with the first stderr chunk that arrives while it is pending. */
  lemma DeployerStderrAborts(cfg: Config, a: seq<Event>, chunk: string, b: seq<Event>)
    requires cfg.mode.Deployer? && SettlementOf(cfg, a).Pending?
    ensures SettlementOf(cfg, a + [StderrData(chunk)] + b) == Rejected(chunk)
  {
    assert Last(a + [StderrData(chunk)]) == StderrData(chunk);
    FirstRequestDecides(cfg, a, StderrData(chunk), b);
  }

  /**
   * Without callbacks, an executor's stream data never settles the
   * deferred, so the first `close` resolves it with the output that close
   * sets.
   */
  lemma ExecutorResolvesOnClose(cfg: Config, chunks: seq<Event>, code: int, signal: Option<string>, b: seq<Event>)
    requires cfg.mode == Executor(None, None)
    requires forall i :: 0 <= i < |chunks| ==> chunks[i].StdoutData? || chunks[i].StderrData?
    ensures SettlementOf(cfg, chunks + [Close(code, signal)] + b)
      == Resolved(Output(cfg.user, cfg.ip, code, signal, cfg.strip(StdoutOf(chunks)), StderrOf(chunks)))
  {
    DataNeverSettles(cfg, chunks);
    assert Init(chunks + [Close(code, signal)]) == chunks;
    FirstRequestDecides(cfg, chunks, Close(code, signal), b);
  }

  lemma {:induction false} DataNeverSettles(cfg: Config, chunks: seq<Event>)
    requires cfg.mode == Executor(None, None)
    requires forall i :: 0 <= i < |chunks| ==> chunks[i].StdoutData? || chunks[i].StderrData?
    ensures SettlementOf(cfg, chunks).Pending?
  {
    if |chunks| > 0 {
      DataNeverSettles(cfg, Init(chunks));
    }
  }

  /**
   * A `shell` error in `deployOnHost` is thrown inside the callback instead
   * of rejecting the deferred, so it leaves the deferred as it was.
   */
  lemma DeployerChannelErrorIgnored(cfg: Config, a: seq<Event>, err: string)
    requires cfg.mode.Deployer?
    ensures SettlementOf(cfg, a + [ChannelError(err)]) == SettlementOf(cfg, a)
  {
    assert Init(a + [ChannelError(err)]) == a && Last(a + [ChannelError(err)]) == ChannelError(err);
  }

  /** The events the stream's handlers deliver. */
  predicate IsStreamEvent(e: Event) {
    e.StdoutData? || e.StderrData? || e.Close?
  }

  /**
   * After a `shell` error, `deployOnHost` throws before it registers any
   * stream handler, so no stream event follows. From then on only a
   * connection error or a setup error settles the deferred, always by
   * rejecting it: it never resolves, and it stays pending while only further
   * channel errors arrive.
   */
  lemma {:induction false} DeployerAfterShellError(cfg: Config, a: seq<Event>, err: string, b: seq<Event>)
    requires cfg.mode.Deployer? && SettlementOf(cfg, a).Pending?
    requires forall i :: 0 <= i < |b| ==> !IsStreamEvent(b[i])
    ensures var s := SettlementOf(cfg, a + [ChannelError(err)] + b);
      !s.Resolved? &&
      (s.Pending? <==> forall i :: 0 <= i < |b| ==> b[i].ChannelError?) &&
      (s.Rejected? ==> exists i :: (0 <= i < |b| &&
        ((b[i].ConnectionError? && s.reason == "Couldnt connect to " + cfg.ip + ": " + b[i].err) ||
         (b[i].SetupError? && s.reason == "Couldnt deploy onto: " + cfg.ip + ": " + b[i].err))))
    decreases |b|
  {
    var p := a + [ChannelError(err)];
    DeployerChannelErrorIgnored(cfg, a, err);
    if |b| == 0 {
      assert p + b == p;
    } else {
      var es := p + b;
      DeployerAfterShellError(cfg, a, err, Init(b));
      assert Init(es) == p + Init(b) && Last(es) == Last(b) && Last(b) == b[|b| - 1];
      assert forall i :: 0 <= i < |b| - 1 ==> Init(b)[i] == b[i];
    }
  }

  /**
   * The output record is the one the latest `close` set: the code it
   * carries, and the stderr received before it, unchanged by any later
   * event.
   */
  lemma {:induction false} OutputAtLatestClose(cfg: Config, es: seq<Event>, k: nat)
    requires k < |es| && es[k].Close?
    requires forall j :: k < j < |es| ==> !es[j].Close?
    ensures OutputOf(cfg, es) == OutputOf(cfg, es[..k + 1])
    ensures OutputOf(cfg, es).returnCode == es[k].code && OutputOf(cfg, es).signal == es[k].signal
    ensures OutputOf(cfg, es).stderr == StderrOf(es[..k])
    decreases |es|
  {
    if |es| == k + 1 {
      assert es[..k + 1] == es && Init(es) == es[..k];
    } else {
      OutputAtLatestClose(cfg, Init(es), k);
      assert Init(es)[..k + 1] == es[..k + 1] && Init(es)[..k] == es[..k];
    }
  }
}
