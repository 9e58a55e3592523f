/**
 * The client record the server keeps for every connected voice client.
 *
 * The Client class is defined in client.cpp, which is not part of this model. Each Client object is
 * modelled as a value; its identity (the shared pointer the server compares with `==`) is the field
 * `ref`. The setters the server calls on a client are given the plain set and map meaning their names
 * state; this is an assumption about client.cpp.
 */
module Clients {

  /** uint16_t, the type of the game and TeamSpeak identifiers in the server's interface. */
  type uint16 = x: int | 0 <= x < 0x1_0000

  type GameId = uint16
  type TeamspeakId = uint16

  /** Identity of an ENet peer (the ENetPeer pointer). */
  type Peer = nat

  /** Identity of a Client object (the shared pointer held in the client list). */
  type Ref = nat

  /** A linalg float3 position; float rounding is not modelled. */
  datatype Vec3 = Vec3(x: real, y: real, z: real)

  datatype ClientRecord = ClientRecord(
    ref: Ref,
    peer: Peer,
    gameId: GameId,
    teamspeakId: TeamspeakId,
    connected: bool,
    position: Vec3,
    rotation: real,
    voiceRange: real,
    nickname: string,
    muted: bool,                    // muted for everyone
    mutedClients: set<Ref>,         // speakers this client has muted for itself
    audibleClients: set<Ref>,       // speakers this client currently hears
    relativeAudible: map<Ref, Vec3>, // per-speaker position overrides
    positionChanged: bool)

  /** An entry of the server's client list; the server's loops check for null entries and skip them. */
  datatype Slot = Null | Live(client: ClientRecord)

  /** Voice range a new client starts with (client.cpp is not part of this model). */
  const InitialVoiceRange: real := 0.0

  /**
   * The client created for a peer that completed its handshake. Its starting state (connected, at the
   * origin, rotation 0, empty nickname, not muted, nothing heard, position flag set) is an assumption
   * about the Client constructor in client.cpp.
   */
  function NewClient(ref: Ref, peer: Peer, gameId: GameId, teamspeakId: TeamspeakId): ClientRecord
  {
    ClientRecord(ref, peer, gameId, teamspeakId, true, Vec3(0.0, 0.0, 0.0), 0.0, InitialVoiceRange, "",
                 false, {}, {}, map[], true)
  }

  function SquaredDistance(a: Vec3, b: Vec3): real
  {
    (a.x - b.x) * (a.x - b.x) + (a.y - b.y) * (a.y - b.y) + (a.z - b.z) * (a.z - b.z)
  }

  /**
   * The test `distance(speaker.position, listener.position) < speaker.voiceRange`: a distance is never
   * negative, so it holds exactly when the range is positive and the squared distance is below its square.
   */
  predicate InRange(speaker: ClientRecord, listener: ClientRecord)
  {
    0.0 < speaker.voiceRange &&
    SquaredDistance(speaker.position, listener.position) < speaker.voiceRange * speaker.voiceRange
  }

  // The Client setters the server calls.

  function SetPosition(c: ClientRecord, position: Vec3, rotation: real): ClientRecord
  {
    c.(position := position, rotation := rotation, positionChanged := true)
  }

  function AddAudible(c: ClientRecord, r: Ref): ClientRecord
  {
    c.(audibleClients := c.audibleClients + {r})
  }

  function RemoveAudible(c: ClientRecord, r: Ref): ClientRecord
  {
    c.(audibleClients := c.audibleClients - {r})
  }

  function SetMutedClient(c: ClientRecord, r: Ref, muted: bool): ClientRecord
  {
    c.(mutedClients := if muted then c.mutedClients + {r} else c.mutedClients - {r})
  }

  /** Forgets everything this client knows about the client `r` that is leaving. */
  function CleanupKnownClient(c: ClientRecord, r: Ref): ClientRecord
  {
    c.(audibleClients := c.audibleClients - {r},
       mutedClients := c.mutedClients - {r},
       relativeAudible := c.relativeAudible - {r})
  }
}
