/**
 Key rotation: the agent's synchronisation pass against the server's check-in.

 The agent keeps two key files, a state file and a WireGuard configuration file; every
 write of one of them is atomic and the process may die between any two. Requests and
 replies may be lost or late, but a request is never served after a later one.
 */
module KeyRotation {
  import opened Prelude
  import opened CheckInRules

  type PrivateKey = string

  /** The fields of the agent's state file that the rotation protocol reads or writes. */
  datatype AgentState = AgentState(
    publicKey: PublicKey,
    pendingPathSet: bool,
    pendingPublicKey: Option<PublicKey>,
    fingerprint: string,
    rendered: bool,
    applyStatus: ApplyStatus)

  /** The configuration on disk, and the peer key of the reply that made the agent write it. */
  datatype ConfigFile = ConfigFile(key: PrivateKey, peerKey: PublicKey)

  datatype Disk = Disk(
    primary: PrivateKey,
    pending: Option<PrivateKey>,
    saved: AgentState,
    config: Option<ConfigFile>)

  datatype Write =
    | WritePrimary(key: PrivateKey)
    | WritePending(key: PrivateKey)
    | RemovePending
    | WriteConfig(file: ConfigFile)
    | SaveState(state: AgentState)

  function Perform(d: Disk, w: Write): Disk {
    match w
    case WritePrimary(k) => d.(primary := k)
    case WritePending(k) => d.(pending := Some(k))
    case RemovePending => d.(pending := None)
    case WriteConfig(c) => d.(config := Some(c))
    case SaveState(s) => d.(saved := s)
  }

  function Replay(d: Disk, ws: seq<Write>): Disk
    decreases |ws|
  {
    if ws == [] then d else Replay(Perform(d, ws[0]), ws[1..])
  }

  lemma {:induction false} ReplayAppend(d: Disk, ws: seq<Write>, w: Write)
    ensures Replay(d, ws + [w]) == Perform(Replay(d, ws), w)
    decreases |ws|
  {
    if ws == [] {
      assert ws + [w] == [w];
    } else {
      assert (ws + [w])[1..] == ws[1..] + [w];
      ReplayAppend(Perform(d, ws[0]), ws[1..], w);
    }
  }

  // ---------------------------------------------------------------- the server's side

  /** A desired configuration; complete when no field that rendering needs is empty. */
  datatype DesiredConfig = DesiredConfig(fingerprint: string, complete: bool)

  datatype Server = Server(
    agentStatus: AgentStatus,
    peerKey: PublicKey,
    peerStatus: PeerStatus,
    otherKeys: set<PublicKey>,
    config: Option<DesiredConfig>)

  datatype Request = Request(rotationKey: Option<PublicKey>, local: LocalState)

  datatype Response = Response(
    peerKey: PublicKey,
    desiredDisabled: bool,
    rotationRequired: bool,
    reconfigureRequired: bool,
    config: Option<DesiredConfig>)

  /** What the agent's HTTP call ends with. */
  datatype Reply = Failure | Success(response: Response)

  function Answer(s: Server, local: LocalState): Response {
    Response(
      s.peerKey,
      s.agentStatus == AgentDisabled,
      s.peerStatus == RotationPending,
      RequiresReconfigure(s.agentStatus, s.peerStatus, if s.config.Some? then s.config.value.fingerprint else "", local),
      s.config)
  }

  function ServeCheckIn(s: Server, r: Request): (Server, Reply) {
    if s.agentStatus == AgentRevoked then (s, Failure)
    else if r.rotationKey.None? then (s, Success(Answer(s, r.local)))
    else
      match CompleteRotation(s.peerKey, s.peerStatus, s.otherKeys, r.rotationKey.value)
      case Err(_) => (s, Failure)
      case Ok((key, status)) =>
        var s' := s.(peerKey := key, peerStatus := status);
        (s', Success(Answer(s', r.local)))
  }

  // ---------------------------------------------------------------- the agent's side

  /** What the refresh at the start of a pass finds on the machine. */
  datatype Observation = Observation(configReadable: bool, configMatches: bool, runtimeFingerprint: Option<string>)

  /** How the operating system treats the actions of one pass. */
  datatype Machine = Machine(
    freshKey: PrivateKey,
    disableWorks: bool,
    pendingWriteWorks: bool,
    configWriteWorks: bool,
    applyRequested: bool,
    applyWorks: bool,
    primaryWriteWorks: bool,
    removeWorks: bool)

  function Refresh(s: AgentState, o: Observation): AgentState {
    if !s.rendered || s.applyStatus == Disabled then s
    else if !o.configReadable || !o.configMatches then s.(applyStatus := Drifted)
    else if s.fingerprint == "" || s.applyStatus == Staged then s
    else if o.runtimeFingerprint == Some(s.fingerprint) then s.(applyStatus := Applied)
    else s.(applyStatus := Drifted)
  }

  function RequestOf(mem: AgentState): Request {
    Request(mem.pendingPublicKey, LocalState(mem.fingerprint, mem.applyStatus))
  }

  /** The writes of ensurePendingRotationKey and the save that follows it. */
  function RotationScript(pub: PrivateKey -> PublicKey, d: Disk, mem: AgentState, m: Machine): seq<Write> {
    if mem.pendingPublicKey.Some? then [SaveState(mem)]
    else if d.pending.Some? then
      [SaveState(mem.(pendingPathSet := true, pendingPublicKey := Some(pub(d.pending.value))))]
    else if !m.pendingWriteWorks then [SaveState(mem)]
    else [WritePending(m.freshKey), SaveState(mem.(pendingPathSet := true, pendingPublicKey := Some(pub(m.freshKey))))]
  }

  function PromoteScript(d: Disk, mem: AgentState, m: Machine): seq<Write> {
    if !mem.pendingPathSet || d.pending.None? || !m.primaryWriteWorks then [SaveState(mem)]
    else if !m.removeWorks then [WritePrimary(d.pending.value), SaveState(mem)]
    else
      [WritePrimary(d.pending.value), RemovePending,
       SaveState(mem.(publicKey := if mem.pendingPublicKey.Some? then mem.pendingPublicKey.value else "",
                      pendingPathSet := false, pendingPublicKey := None))]
  }

  /** The agent state after the configuration was rendered and written, and its outcome. */
  function ConfigWritten(mem: AgentState, cfg: DesiredConfig, m: Machine): AgentState {
    mem.(fingerprint := cfg.fingerprint, rendered := true,
         applyStatus := if !m.applyRequested then Staged else if m.applyWorks then Applied else ApplyFailed)
  }

  function ApplyScript(d: Disk, mem: AgentState, key: PrivateKey, rotated: bool, r: Response, m: Machine): seq<Write> {
    if r.config.None? then
      if rotated then PromoteScript(d, mem, m) else [SaveState(mem)]
    else if !r.config.value.complete || !m.configWriteWorks then
      [SaveState(mem.(fingerprint := r.config.value.fingerprint, applyStatus := ApplyFailed))]
    else
      var mem' := ConfigWritten(mem, r.config.value, m);
      [WriteConfig(ConfigFile(key, r.peerKey))] +
      if mem'.applyStatus != ApplyFailed && rotated then PromoteScript(d, mem', m) else [SaveState(mem')]
  }

  /** resolvePrivateKeyForApply picks the key; a missing pending key file ends the pass without a save. */
  function ReconfigureScript(d: Disk, mem: AgentState, r: Response, m: Machine): seq<Write> {
    if mem.pendingPublicKey != Some(r.peerKey) then ApplyScript(d, mem, d.primary, false, r, m)
    else if mem.pendingPathSet && d.pending.Some? then ApplyScript(d, mem, d.pending.value, true, r, m)
    else []
  }

  /** All the writes of one pass, from the reply on. A pass that never crashes performs them all. */
  function SyncScript(pub: PrivateKey -> PublicKey, d: Disk, mem: AgentState, reply: Reply, m: Machine): seq<Write> {
    if reply.Failure? then [SaveState(mem)]
    else
      var r := reply.response;
      if r.desiredDisabled then [SaveState(mem.(applyStatus := if m.disableWorks then Disabled else ApplyFailed))]
      else if r.rotationRequired then RotationScript(pub, d, mem, m)
      else if r.reconfigureRequired then ReconfigureScript(d, mem, r, m)
      else [SaveState(mem)]
  }

  // ---------------------------------------------------------------- the agent as a program

  /**
   Asked to perform ws with left writes to live, a process that had performed before ends
   having performed after: all of ws if it is alive, and otherwise as many as it could.
   */
  ghost predicate Ran(before: seq<Write>, left: nat, after: seq<Write>, left': nat, ws: seq<Write>, alive: bool) {
    && alive == (|ws| <= left)
    && after == before + (if alive then ws else ws[..left])
    && left' == if alive then left - |ws| else 0
  }

  lemma RanThen(t0: seq<Write>, l0: nat, t1: seq<Write>, l1: nat, t2: seq<Write>, l2: nat,
                ws1: seq<Write>, ws2: seq<Write>, alive: bool)
    requires Ran(t0, l0, t1, l1, ws1, true) && Ran(t1, l1, t2, l2, ws2, alive)
    ensures Ran(t0, l0, t2, l2, ws1 + ws2, alive)
  {
    if !alive {
      assert (ws1 + ws2)[..l0] == ws1 + ws2[..l1];
    }
  }

  lemma RanDead(t0: seq<Write>, l0: nat, t1: seq<Write>, l1: nat, ws1: seq<Write>, ws2: seq<Write>)
    requires Ran(t0, l0, t1, l1, ws1, false)
    ensures Ran(t0, l0, t1, l1, ws1 + ws2, false)
  {
    assert (ws1 + ws2)[..l0] == ws1[..l0];
  }

  /**
   The agent process. Its file fields survive a crash; mem is the State struct the pass
   works on. The process dies at the write for which writesLeft has run out.
   */
  class AgentProcess {
    const pub: PrivateKey -> PublicKey
    var primary: PrivateKey
    var pending: Option<PrivateKey>
    var saved: AgentState
    var config: Option<ConfigFile>
    var mem: AgentState
    var writesLeft: nat
    ghost var start: Disk
    ghost var trace: seq<Write>

    constructor (pub: PrivateKey -> PublicKey, disk: Disk, writesLeft: nat)
      ensures Snapshot() == disk && this.pub == pub && this.writesLeft == writesLeft && Valid()
    {
      this.pub := pub;
      this.writesLeft := writesLeft;
      primary, pending, saved, config := disk.primary, disk.pending, disk.saved, disk.config;
      mem := disk.saved;
      start, trace := disk, [];
    }

    ghost function Snapshot(): Disk
      reads this
    {
      Disk(primary, pending, saved, config)
    }

    /** The files hold what the writes performed so far left there. */
    ghost predicate Valid()
      reads this
    {
      Snapshot() == Replay(start, trace)
    }

    method SavePrimaryKey(key: PrivateKey) returns (alive: bool)
      requires Valid()
      modifies this`primary, this`writesLeft, this`trace
      ensures Valid()
      ensures Ran(old(trace), old(writesLeft), trace, writesLeft, [WritePrimary(key)], alive)
      ensures alive ==> primary == key
    {
      alive := writesLeft > 0;
      if alive {
        primary, writesLeft := key, writesLeft - 1;
        ReplayAppend(start, trace, WritePrimary(key));
        trace := trace + [WritePrimary(key)];
      }
    }

    method SavePendingKey(key: PrivateKey) returns (alive: bool)
      requires Valid()
      modifies this`pending, this`writesLeft, this`trace
      ensures Valid()
      ensures Ran(old(trace), old(writesLeft), trace, writesLeft, [WritePending(key)], alive)
    {
      alive := writesLeft > 0;
      if alive {
        pending, writesLeft := Some(key), writesLeft - 1;
        ReplayAppend(start, trace, WritePending(key));
        trace := trace + [WritePending(key)];
      }
    }

    method RemovePendingKey() returns (alive: bool)
      requires Valid()
      modifies this`pending, this`writesLeft, this`trace
      ensures Valid()
      ensures Ran(old(trace), old(writesLeft), trace, writesLeft, [RemovePending], alive)
    {
      alive := writesLeft > 0;
      if alive {
        pending, writesLeft := None, writesLeft - 1;
        ReplayAppend(start, trace, RemovePending);
        trace := trace + [RemovePending];
      }
    }

    method SaveConfig(file: ConfigFile) returns (alive: bool)
      requires Valid()
      modifies this`config, this`writesLeft, this`trace
      ensures Valid()
      ensures Ran(old(trace), old(writesLeft), trace, writesLeft, [WriteConfig(file)], alive)
    {
      alive := writesLeft > 0;
      if alive {
        config, writesLeft := Some(file), writesLeft - 1;
        ReplayAppend(start, trace, WriteConfig(file));
        trace := trace + [WriteConfig(file)];
      }
    }

    method SaveMemory() returns (alive: bool)
      requires Valid()
      modifies this`saved, this`writesLeft, this`trace
      ensures Valid()
      ensures Ran(old(trace), old(writesLeft), trace, writesLeft, [SaveState(mem)], alive)
    {
      alive := writesLeft > 0;
      if alive {
        saved, writesLeft := mem, writesLeft - 1;
        ReplayAppend(start, trace, SaveState(mem));
        trace := trace + [SaveState(mem)];
      }
    }

    /** ensurePendingRotationKey: reuse a pending key file if there is one, else create it. */
    method EnsurePendingRotationKey(m: Machine) returns (alive: bool)
      requires Valid()
      modifies this`pending, this`mem, this`writesLeft, this`trace
      ensures Valid()
      ensures var ws := RotationScript(pub, old(Snapshot()), old(mem), m);
              && ws != []
              && Ran(old(trace), old(writesLeft), trace, writesLeft, ws[..|ws| - 1], alive)
              && (alive ==> ws[|ws| - 1] == SaveState(mem))
    {
      alive := true;
      if mem.pendingPublicKey.Some? {
        return;
      }
      var key: PrivateKey;
      if pending.Some? {
        key := pending.value;
      } else {
        if !m.pendingWriteWorks {
          return;
        }
        key := m.freshKey;
        alive := SavePendingKey(key);
        if !alive {
          return;
        }
      }
      mem := mem.(pendingPathSet := true, pendingPublicKey := Some(pub(key)));
    }

    /** PromotePendingPrivateKey followed by the save of the state. */
    method PromotePendingPrivateKey(m: Machine) returns (alive: bool)
      requires Valid()
      modifies this`primary, this`pending, this`saved, this`mem, this`writesLeft, this`trace
      ensures Valid()
      ensures Ran(old(trace), old(writesLeft), trace, writesLeft, PromoteScript(old(Snapshot()), old(mem), m), alive)
    {
      if !mem.pendingPathSet || pending.None? || !m.primaryWriteWorks {
        alive := SaveMemory();
        return;
      }
      alive := SavePrimaryKey(pending.value);
      if !alive {
        return;
      }
      if m.removeWorks {
        alive := RemovePendingKey();
        if !alive {
          return;
        }
        mem := mem.(publicKey := if mem.pendingPublicKey.Some? then mem.pendingPublicKey.value else "",
                    pendingPathSet := false, pendingPublicKey := None);
      }
      alive := SaveMemory();
    }

    /** WriteAndApplyConfig: failed reports whether the pass must stop with an error. */
    method WriteAndApplyConfig(key: PrivateKey, r: Response, m: Machine) returns (alive: bool, failed: bool)
      requires Valid()
      modifies this`config, this`mem, this`writesLeft, this`trace
      ensures Valid()
      ensures r.config.None? ==>
                alive && !failed && mem == old(mem) && trace == old(trace) && writesLeft == old(writesLeft)
      ensures r.config.Some? && !(r.config.value.complete && m.configWriteWorks) ==>
                && alive && failed && trace == old(trace) && writesLeft == old(writesLeft)
                && mem == old(mem).(fingerprint := r.config.value.fingerprint, applyStatus := ApplyFailed)
      ensures r.config.Some? && r.config.value.complete && m.configWriteWorks ==>
                && Ran(old(trace), old(writesLeft), trace, writesLeft, [WriteConfig(ConfigFile(key, r.peerKey))], alive)
                && (alive ==>
                      && mem == ConfigWritten(old(mem), r.config.value, m)
                      && failed == (mem.applyStatus == ApplyFailed))
    {
      alive, failed := true, false;
      if r.config.None? {
        return;
      }
      var cfg := r.config.value;
      if !cfg.complete || !m.configWriteWorks {
        mem := mem.(fingerprint := cfg.fingerprint, applyStatus := ApplyFailed);
        return true, true;
      }
      alive := SaveConfig(ConfigFile(key, r.peerKey));
      if !alive {
        return;
      }
      mem := mem.(fingerprint := cfg.fingerprint, rendered := true);
      if !m.applyRequested {
        mem := mem.(applyStatus := Staged);
      } else if !m.applyWorks {
        mem := mem.(applyStatus := ApplyFailed);
        failed := true;
      } else {
        mem := mem.(applyStatus := Applied);
      }
    }

    method Reconfigure(r: Response, m: Machine) returns (alive: bool)
      requires Valid()
      modifies this`primary, this`pending, this`saved, this`config, this`mem, this`writesLeft, this`trace
      ensures Valid()
      ensures var ws := ReconfigureScript(old(Snapshot()), old(mem), r, m);
              Ran(old(trace), old(writesLeft), trace, writesLeft, ws, alive)
    {
      alive := true;
      var rotated := mem.pendingPublicKey == Some(r.peerKey);
      if rotated && (!mem.pendingPathSet || pending.None?) {
        return;
      }
      var key := if rotated then pending.value else primary;
      ghost var first := [WriteConfig(ConfigFile(key, r.peerKey))];
      ghost var written := r.config.Some? && r.config.value.complete && m.configWriteWorks;
      ghost var ws := ApplyScript(Snapshot(), mem, key, rotated, r, m);
      var failed;
      alive, failed := WriteAndApplyConfig(key, r, m);
      if !alive {
        RanDead(old(trace), old(writesLeft), trace, writesLeft, first, ws[1..]);
        assert ws == first + ws[1..];
        return;
      }
      ghost var t1, l1 := trace, writesLeft;
      ghost var rest := if !failed && rotated then PromoteScript(Snapshot(), mem, m) else [SaveState(mem)];
      if !failed && rotated {
        alive := PromotePendingPrivateKey(m);
      } else {
        alive := SaveMemory();
      }
      if written {
        RanThen(old(trace), old(writesLeft), t1, l1, trace, writesLeft, first, rest, alive);
      }
    }

    /** SyncOnce after the refresh, given what the check-in call returned. */
    method FollowReply(reply: Reply, m: Machine) returns (alive: bool)
      requires Valid()
      modifies this`primary, this`pending, this`saved, this`config, this`mem, this`writesLeft, this`trace
      ensures Valid()
      ensures var ws := SyncScript(pub, old(Snapshot()), old(mem), reply, m);
              Ran(old(trace), old(writesLeft), trace, writesLeft, ws, alive)
    {
      alive := true;
      if reply.Failure? {
        alive := SaveMemory();
        return;
      }
      var r := reply.response;
      if r.desiredDisabled {
        mem := mem.(applyStatus := if m.disableWorks then Disabled else ApplyFailed);
      } else if r.rotationRequired {
        ghost var ws := RotationScript(pub, Snapshot(), mem, m);
        ghost var t0, l0 := trace, writesLeft;
        alive := EnsurePendingRotationKey(m);
        assert ws == ws[..|ws| - 1] + [SaveState(mem)] || !alive;
        ghost var t1, l1 := trace, writesLeft;
        if alive {
          alive := SaveMemory();
          RanThen(t0, l0, t1, l1, trace, writesLeft, ws[..|ws| - 1], [SaveState(mem)], alive);
        }
        return;
      } else if r.reconfigureRequired {
        alive := Reconfigure(r, m);
        return;
      }
      alive := SaveMemory();
    }

    /**
     SyncOnce, given what the check-in call returned. Whatever the machine does and wherever
     the process dies, the files hold exactly a prefix of the pass's script, and the whole of
     it unless the process died.
     */
    method SyncOnce(o: Observation, reply: Reply, m: Machine) returns (alive: bool)
      modifies this
      ensures var ws := SyncScript(pub, old(Snapshot()), Refresh(old(saved), o), reply, m);
              && alive == (|ws| <= old(writesLeft))
              && Snapshot() == Replay(old(Snapshot()), if alive then ws else ws[..old(writesLeft)])
    {
      start, trace := Snapshot(), [];
      mem := Refresh(saved, o);
      alive := FollowReply(reply, m);
      ghost var ws := SyncScript(pub, old(Snapshot()), Refresh(old(saved), o), reply, m);
      assert trace == if alive then ws else ws[..old(writesLeft)];
    }
  }
}
