# JustAnotherVoiceChat server: client registry

This project models the client registry of the native JustAnotherVoiceChat voice server
(`JustAnotherVoiceChat.Server/src/server.cpp`) and proves properties of the model. The server keeps
`_clients`, a vector of shared pointers to `Client` objects. Each client is identified by its game
id, its TeamSpeak id and its ENet peer. Every operation below except `numberOfClients` runs under
`_clientsMutex` as one sequential step. Each is modelled as one atomic method of the class
`Server.VoiceServer`.

- `wrappers.dfy` (module `Wrappers`): the `Option` type.
- `client.dfy` (module `Clients`): the client record and the `Client` setters the server calls.
  - A `Client` object is a value `ClientRecord`.
  - The pointer identity the server compares with `==` is the field `ref`.
  - A list entry is `Null` or `Live(client)`, because the server skips null entries.
  - The test `distance(a, b) < voiceRange` is the predicate `InRange` over reals.
- `registry.dfy` (module `Registry`): pure functions over the list.
  - The first-match lookup.
  - The erase loop shared by `removeClient` and `onClientDisconnect`, with its disconnected callbacks.
  - Batch position updates.
  - Admission at handshake.
  - The invariant `WellFormed`:
    - every client was allocated before;
    - no client object is listed twice;
    - no peer has two clients.
  - The invariant `NoNulls`: the server only appends freshly allocated clients (`server.cpp` lines 848-849), so the
    list never holds a null entry. The `Null` entry is kept so the server's defensive null checks are
    still modelled.
- `audibility.dfy` (module `Audibility`): pure functions for who hears whom.
  - Muting for everyone, and one listener muting one speaker.
  - The relative-position overrides.
  - One pass of `updateClients`.
- `server.dfy` (module `Server`): the class `VoiceServer`.
  - Fields:
    - `clients`, the list;
    - `events`, the callbacks dispatched so far, in order;
    - `nextRef`, the identity of the next `Client` allocated.
  - Every public operation is a method. Its contract ties the new state to the functions above; the
    lookups, removals, batch updates, mutes and the audibility pass keep the server's loops.
  - Every public operation keeps `Valid()`: the list is well formed and has no null entry.

Callbacks that the server starts with `std::async` appear as appends to `events`:
- `ClientConnected`;
- `ClientDisconnected`;
- `ClientRejected`.

The answer of the connecting callback is the parameter `accepted` of `HandleHandshake`.

## Model

| member | source | states |
|---|---|---|
| Registry.FirstMatch | JustAnotherVoiceChat.Server/src/server.cpp:586-626 | The result is the index of an entry that matches the key, with no earlier entry matching. It is None exactly when no entry matches. Null entries match nothing. |
| Registry.FirstMatchStable | JustAnotherVoiceChat.Server/src/server.cpp:586-626 | Changing clients' fields without touching identities (ref, peer, game id, TeamSpeak id) never changes what a lookup finds. |
| Registry.WellFormedShape | JustAnotherVoiceChat.Server/src/server.cpp:231-344 | Updating clients in place keeps the list well formed. |
| Registry.NoNullsShape | JustAnotherVoiceChat.Server/src/server.cpp:231-344 | Updating clients in place never puts a null entry into the list. |
| Registry.EraseAppend | JustAnotherVoiceChat.Server/src/server.cpp:177-191 | The erase loop's survivors and callbacks for a concatenation are those of each part, in order. Survivors keep their relative order. |
| Registry.EraseNoMatch | JustAnotherVoiceChat.Server/src/server.cpp:663-682 | When no entry matches, the erase loop leaves the list unchanged and fires no callback. |
| Registry.EraseMembers | JustAnotherVoiceChat.Server/src/server.cpp:177-191 | The entries that remain are exactly the original entries that do not match. Every erased entry fires exactly one callback: survivors plus callbacks add up to the original length. |
| Registry.EraseSingle | JustAnotherVoiceChat.Server/src/server.cpp:177-191 | When exactly one entry matches, erasing removes that entry and keeps the rest in order. |
| Registry.EraseSingleFires | JustAnotherVoiceChat.Server/src/server.cpp:179-185 | When exactly one entry matches, exactly one disconnected callback fires, carrying that client's game id. |
| Registry.RemoveAtWellFormed | JustAnotherVoiceChat.Server/src/server.cpp:187 | Dropping one entry keeps the list well formed. |
| Registry.CleanupAllEffect | JustAnotherVoiceChat.Server/src/server.cpp:156-167 | After cleanupKnownClient on every other client, each entry keeps its identity and the list stays well formed. No other live client keeps the leaving client in its audible set, its muted set or its override map. |
| Registry.RemoveEntryErase | JustAnotherVoiceChat.Server/src/server.cpp:145-196 | Removal by pointer (removeClient) or by peer (onClientDisconnect) from a well-formed list: only the leaving entry disappears, the others keep their order, one disconnected callback with its game id fires, and nothing matching the key remains. |
| Registry.RemoveEntryForgets | JustAnotherVoiceChat.Server/src/server.cpp:156-191 | After removal the list is well formed and holds the same clients as before, in the same order, minus the leaving one. No remaining client refers to the leaving one. |
| Registry.LastUpdateFor | JustAnotherVoiceChat.Server/src/server.cpp:254-263 | The result is the index of the last update naming the game id. It is None exactly when no update names it. |
| Registry.ApplyPositionsShape | JustAnotherVoiceChat.Server/src/server.cpp:247-267 | Batch position updates never add, drop, reorder or re-identify entries. |
| Registry.ApplyPositionsEffect | JustAnotherVoiceChat.Server/src/server.cpp:254-263 | After a batch, the first client with a game id has the position and rotation of the last update for that id, and its position flag is set. Every other entry, and every client no update names, is unchanged. So a later update for the same id wins. |
| Registry.AdmissionWellFormed | JustAnotherVoiceChat.Server/src/server.cpp:825-849 | Appending the admitted client keeps the list well formed. The new client is the one a peer lookup finds, at the end of the list. |
| Audibility.MuteForAll | JustAnotherVoiceChat.Server/src/server.cpp:364-381 | After muteClientForAll only the target's muted flag and other clients' entries for the target change. Muting removes the target from every other audible set. Unmuting makes another client hear the target iff it already did or the target is in range. The target's own audible set is untouched. |
| Audibility.MuteForAllQuery | JustAnotherVoiceChat.Server/src/server.cpp:364-397 | After muteClientForAll(g, m) succeeds, isClientMutedForAll(g) answers m. |
| Audibility.MuteUnmuteForAll | JustAnotherVoiceChat.Server/src/server.cpp:367-381 | Muting and then unmuting a client for everyone leaves each other client hearing it exactly when it is in range. |
| Audibility.MuteForClient | JustAnotherVoiceChat.Server/src/server.cpp:412-420 | muteClientForClient changes only the listener, and only its entries for the speaker. The speaker is in the listener's muted set iff muted. When muted the listener does not hear the speaker. When unmuted the listener hears the speaker iff it already did or the speaker is in range. |
| Audibility.MuteForClientQuery | JustAnotherVoiceChat.Server/src/server.cpp:412-437 | After muteClientForClient(speaker, listener, m) succeeds, isClientMutedForClient(speaker, listener) answers m. |
| Audibility.SetRelative | JustAnotherVoiceChat.Server/src/server.cpp:311 | The listener's override for the speaker becomes the given position. Other overrides and all other fields are kept. |
| Audibility.ResetRelative | JustAnotherVoiceChat.Server/src/server.cpp:327 | The listener's override for the speaker is removed. Other overrides and all other fields are kept. |
| Audibility.SetThenResetRelative | JustAnotherVoiceChat.Server/src/server.cpp:299-329 | Setting an override and then resetting it gives the same listener as the reset alone. |
| Audibility.PassAudibleStable | JustAnotherVoiceChat.Server/src/server.cpp:525-541 | The inner loop of updateClients reads identities, positions, ranges and flags, never audible sets. So updating earlier listeners does not affect later ones. |
| Audibility.PassAudibleEffect | JustAnotherVoiceChat.Server/src/server.cpp:525-541 | After the inner loop for listener l, a listed speaker s is audible to l iff s is in range, when l or s moved. Otherwise s keeps its status, as does any client not listed. |
| Audibility.UpdatePassEffect | JustAnotherVoiceChat.Server/src/server.cpp:513-557 | One full pass over a well-formed list: (1) for every connected listener and other client where either moved, the client is audible iff in range; (2) other pairs, unlisted refs and disconnected listeners keep their status; (3) every position flag ends false; (4) nothing but audible sets and flags changes. |
| Audibility.PassAudibleQuiet | JustAnotherVoiceChat.Server/src/server.cpp:532-534 | With no position flag set on either side, the inner loop leaves the listener's audible set alone. |
| Audibility.UpdatePassIdempotent | JustAnotherVoiceChat.Server/src/server.cpp:513-557 | A second pass right after a first changes nothing. |
| Server.EraseLoop | JustAnotherVoiceChat.Server/src/server.cpp:177-191 | The erase-while-iterating loop, with the iterator staying put after an erase, yields exactly the non-matching entries in order and one callback per erased entry. |
| Server.VoiceServer.constructor | JustAnotherVoiceChat.Server/src/server.cpp:40-64 | A new server has an empty client list and has dispatched no callback. |
| Server.VoiceServer.NumberOfClients | JustAnotherVoiceChat.Server/src/server.cpp:141-143 | The count is the length of the list, null entries included. |
| Server.VoiceServer.Find | JustAnotherVoiceChat.Server/src/server.cpp:586-626 | The linear search with early return that skips null entries finds the first match. |
| Server.VoiceServer.ClientByGameId | JustAnotherVoiceChat.Server/src/server.cpp:586-598 | The first non-null entry with that game id, or none. |
| Server.VoiceServer.ClientByTeamspeakId | JustAnotherVoiceChat.Server/src/server.cpp:600-612 | The first non-null entry with that TeamSpeak id, or none. |
| Server.VoiceServer.ClientByPeer | JustAnotherVoiceChat.Server/src/server.cpp:614-626 | The first non-null entry for that peer, or none. |
| Server.VoiceServer.IsClientConnected | JustAnotherVoiceChat.Server/src/server.cpp:217-229 | On a list without null entries (which the server always holds), true iff some entry has the game id, which is exactly when clientByGameId finds one. |
| Server.VoiceServer.CleanupOthers | JustAnotherVoiceChat.Server/src/server.cpp:156-167 | cleanupKnownClient is applied to every non-null entry other than the leaving client. Nothing else changes. |
| Server.VoiceServer.EraseMatching | JustAnotherVoiceChat.Server/src/server.cpp:176-191 | The list becomes its non-matching entries. One disconnected callback per erased entry is appended to the log. |
| Server.VoiceServer.RemoveClient | JustAnotherVoiceChat.Server/src/server.cpp:145-196 | For an unknown game id: false and no change. Otherwise true: the other clients forget the first client with that id, that client is erased with the rest in order, and exactly one disconnected callback fires. |
| Server.VoiceServer.RemoveAllClients | JustAnotherVoiceChat.Server/src/server.cpp:198-215 | False iff the list was empty. Afterwards the list is empty and no callback has fired. |
| Server.VoiceServer.SetClientPosition | JustAnotherVoiceChat.Server/src/server.cpp:231-245 | For an unknown id: false and no change. Otherwise only the first client with that id gets the new position and rotation, and its flag is set. |
| Server.VoiceServer.SetClientPositions | JustAnotherVoiceChat.Server/src/server.cpp:247-267 | The list becomes the updates applied in order, with unknown ids skipped. The result is true iff every id was found. |
| Server.VoiceServer.SetClientVoiceRange | JustAnotherVoiceChat.Server/src/server.cpp:269-282 | For an unknown id: false and no change. Otherwise only that client's voice range changes, to any value given. |
| Server.VoiceServer.SetClientNickname | JustAnotherVoiceChat.Server/src/server.cpp:284-297 | For an unknown id: false and no change. Otherwise only that client's nickname changes. |
| Server.VoiceServer.SetRelativePositionForClient | JustAnotherVoiceChat.Server/src/server.cpp:299-313 | False and no change unless both clients exist. Otherwise only the listener's override for the speaker is set. |
| Server.VoiceServer.ResetRelativePositionForClient | JustAnotherVoiceChat.Server/src/server.cpp:315-329 | False and no change unless both clients exist. Otherwise only the listener's override for the speaker is removed. |
| Server.VoiceServer.ResetAllRelativePositions | JustAnotherVoiceChat.Server/src/server.cpp:331-344 | For an unknown id: false and no change. Otherwise only that client's override map becomes empty. |
| Server.VoiceServer.MuteClientForAll | JustAnotherVoiceChat.Server/src/server.cpp:353-384 | For an unknown id: false and no change. Otherwise the list becomes MuteForAll of it. |
| Server.VoiceServer.IsClientMutedForAll | JustAnotherVoiceChat.Server/src/server.cpp:386-398 | The muted flag of the first client with the id, or false when there is none. |
| Server.VoiceServer.MuteClientForClient | JustAnotherVoiceChat.Server/src/server.cpp:400-423 | False and no change unless both clients exist. Otherwise the list becomes MuteForClient of it. |
| Server.VoiceServer.IsClientMutedForClient | JustAnotherVoiceChat.Server/src/server.cpp:425-438 | Whether the listener has muted the speaker, or false when either is unknown. |
| Server.VoiceServer.UpdateAudibleOf | JustAnotherVoiceChat.Server/src/server.cpp:525-541 | The inner loop changes only the listener's audible set, to PassAudible of it. |
| Server.VoiceServer.UpdateClients | JustAnotherVoiceChat.Server/src/server.cpp:506-557 | One pass: connected listeners get their audible sets recomputed against the list as it was, then every flag is reset. The list stays well formed. |
| Server.VoiceServer.OnClientDisconnect | JustAnotherVoiceChat.Server/src/server.cpp:636-685 | For an unknown peer: no change and no callback. Otherwise the other clients forget the client, it is erased with the rest in order, and one disconnected callback with its game id fires. |
| Server.VoiceServer.HandleHandshake | JustAnotherVoiceChat.Server/src/server.cpp:788-861 | The outcome depends on the packet: (1) a bad status fires the rejected callback with game id and code, and changes nothing else; (2) a zero TeamSpeak id, a peer already listed, or a rejection by the connecting callback changes nothing; (3) otherwise exactly one fresh client is appended at the end and the connected callback fires. |

## Left out

- ENet networking is not modelled: `create`, `close`, `update`, `onClientConnect`, `onClientMessage`, the protocol messages, `sendHandshakeResponse`, `sendProtocolResponse` and `enet_peer_disconnect`. This is I/O.
- Threads, `_clientsMutex`, `sleep_for`, `abortThreads` and the `while (_running)` loop of `updateClients` are not modelled. Each locked body is one atomic method, and `UpdateClients` is one iteration.
- `handleHandshake` releases the lock while the connecting callback runs (lines 831-845), so another thread can insert a client for the same peer in between. The model runs the whole handshake atomically and does not capture that race.
- Callback registration is not modelled: every callback is treated as registered. An unregistered connecting callback corresponds to `accepted == true`.
- The cereal decoding of the handshake packet, its failure path and `verifyProtocolVersion` are not modelled. They are library code.
- The value of `STATUS_CODE_OK` is defined in a protocol header that is not part of this model, so the status is `StatusOk` or `StatusError(code)`.
- `linalg::distance` and float arithmetic are not modelled: positions, ranges and rotations are reals. `set3DSettings` stores two floats and is left out.
- client.cpp is not part of this model. The `Client` setters get the plain set and map meaning their names state.
  - `setPosition` sets the position flag.
  - `cleanupKnownClient` forgets the client in the audible set, the muted set and the override map.
  - `NewClient`'s starting state is assumed: connected, at the origin, rotation 0, range `InitialVoiceRange` (0), empty nickname, not muted, empty audible and muted sets and override map, position flag set.
  - `disconnect`, `sendUpdate`, `sendPositions` and `isMutedClient` beyond set membership are not modelled.
- Server.VoiceServer.IsClientConnected: requires a list without null entries, because `isClientConnected` dereferences every entry before the first match without a null check (lines 222-225). `Valid()` guarantees this.
- Server.VoiceServer.NumberOfClients: `numberOfClients` reads the list size without taking `_clientsMutex` (lines 141-143). The model treats the read as atomic.
- Server.VoiceServer.SetClientPositions: takes the updates as a sequence. A negative `length` (the loop simply does not run) and an array shorter than `length` cannot be expressed.
- `maxClients`, the TeamSpeak server and channel settings, and the call and radio handlers of the resource scripts are not modelled. They are configuration or engine glue.
- Muting is modelled as the server code does it: unmuting for everyone ignores listeners' personal mutes, and the audibility pass ignores both mute layers. Whether client.cpp compensates is not part of this model.
