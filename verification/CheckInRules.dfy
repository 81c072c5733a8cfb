/**
 The decisions the server takes on an agent heartbeat: whether a rotation key is accepted,
 and whether the agent is told to rewrite its configuration.
 */
module CheckInRules {
  import opened Prelude

  type PublicKey = string

  datatype AgentStatus = Enrolled | AgentDisabled | AgentRevoked

  datatype PeerStatus = Planned | Active | PeerDisabled | PeerRevoked | RotationPending

  datatype ApplyStatus = Unreported | Applied | Staged | ApplyFailed | Drifted | Disabled

  /** What the agent reports about itself. */
  datatype LocalState = LocalState(fingerprint: string, status: ApplyStatus)

  datatype RotationError = MalformedKey | SameKey | KeyTaken

  predicate KeyCharacter(c: char) {
    || 'A' <= c <= 'Z' || 'a' <= c <= 'z' || '0' <= c <= '9'
    || c in "+/=._:-"
  }

  /** The server's key pattern: 16 to 256 characters of its alphabet. */
  predicate WellFormedKey(key: PublicKey) {
    16 <= |key| <= 256 && forall i :: 0 <= i < |key| ==> KeyCharacter(key[i])
  }

  /** The peer's key and status after a heartbeat that offers rotationKey. */
  function CompleteRotation(key: PublicKey, status: PeerStatus, otherKeys: set<PublicKey>, rotationKey: PublicKey)
    : Result<(PublicKey, PeerStatus), RotationError>
  {
    if status != RotationPending then Ok((key, status))
    else if !WellFormedKey(rotationKey) then Err(MalformedKey)
    else if rotationKey == key then Err(SameKey)
    else if rotationKey in otherKeys then Err(KeyTaken)
    else Ok((rotationKey, Planned))
  }

  predicate RequiresReconfigure(agent: AgentStatus, peer: PeerStatus, desiredFingerprint: string, local: LocalState) {
    if agent == AgentDisabled then local.status != Disabled
    else if peer != Active then true
    else if local.status == ApplyFailed || local.status == Drifted then true
    else if desiredFingerprint == "" then false
    else local.fingerprint != desiredFingerprint
  }
}
