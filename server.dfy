/**
 * The voice server's client registry (class Server of server.cpp). Every public operation runs as
 * one step while the client-list mutex is held; here each is one method on the object. Callbacks
 * dispatched with std::async are appended to the event log `events`.
 */
module Server {
  import opened Wrappers
  import opened Clients
  import opened Registry
  import opened Audibility

  /**
   * The erase loop of removeClient and onClientDisconnect: each matching entry fires the disconnected
   * callback and is erased, and the iterator stays put after an erase; the others are kept in order.
   */
  method EraseLoop(s: seq<Slot>, key: Key) returns (list: seq<Slot>, fired: seq<Event>)
    ensures list == Erase(s, key) && fired == DisconnectedEvents(s, key)
  {
    ghost var m := 0;
    ghost var kept: seq<Slot> := [];
    fired := [];
    list := s;
    var k := 0;
    while k < |list|
      invariant 0 <= m <= |s|
      invariant kept == Erase(s[..m], key) && fired == DisconnectedEvents(s[..m], key)
      invariant list == kept + s[m..] && k == |kept|
      decreases |list| - k
    {
      EraseLoopStep(s, m, kept, fired, list, key);
      if Matches(list[k], key) {
        fired := fired + [ClientDisconnected(list[k].client.gameId)];
        list := list[..k] + list[k + 1..];
      } else {
        kept := kept + [s[m]];
        k := k + 1;
      }
      m := m + 1;
    }
    assert s[..m] == s;
  }

  class VoiceServer {
    /** _clients, the list of client pointers. */
    var clients: seq<Slot>
    /** The callbacks dispatched so far, in order. */
    var events: seq<Event>
    /** The identity the next Client object gets when it is allocated. */
    var nextRef: nat

    ghost predicate Valid()
      reads this
    {
      WellFormed(clients, nextRef) && NoNulls(clients)
    }

    constructor ()
      ensures Valid() && clients == [] && events == []
    {
      clients := [];
      events := [];
      nextRef := 0;
    }

    /** numberOfClients: the length of the list, null entries included. */
    method NumberOfClients() returns (n: int)
      ensures n == |clients| && n >= 0
    {
      n := |clients|;
    }

    /** The linear search with early return shared by the three clientBy… lookups; null entries are skipped. */
    method Find(key: Key) returns (r: Option<nat>)
      ensures r == FirstMatch(clients, key)
    {
      var k := 0;
      while k < |clients|
        invariant 0 <= k <= |clients|
        invariant forall j :: 0 <= j < k ==> !Matches(clients[j], key)
      {
        if clients[k].Null? {
          k := k + 1;
          continue;
        }
        if Matches(clients[k], key) {
          return Some(k);
        }
        k := k + 1;
      }
      return None;
    }

    method ClientByGameId(g: GameId) returns (r: Option<nat>)
      ensures r == FirstMatch(clients, GameIdKey(g))
    {
      r := Find(GameIdKey(g));
    }

    method ClientByTeamspeakId(t: TeamspeakId) returns (r: Option<nat>)
      ensures r == FirstMatch(clients, TeamspeakKey(t))
    {
      r := Find(TeamspeakKey(t));
    }

    method ClientByPeer(p: Peer) returns (r: Option<nat>)
      ensures r == FirstMatch(clients, PeerKey(p))
    {
      r := Find(PeerKey(p));
    }

    /**
     * isClientConnected. Unlike the lookups it dereferences every entry before the first match without
     * a null check, so it needs a list without null entries (which `Valid` guarantees); on such a list it
     * agrees with clientByGameId.
     */
    method IsClientConnected(g: GameId) returns (b: bool)
      requires NoNulls(clients)
      ensures b <==> exists j :: 0 <= j < |clients| && clients[j].client.gameId == g
      ensures b <==> FirstMatch(clients, GameIdKey(g)).Some?
    {
      var k := 0;
      while k < |clients|
        invariant 0 <= k <= |clients|
        invariant forall j :: 0 <= j < k ==> clients[j].client.gameId != g
      {
        if clients[k].client.gameId == g {
          assert Matches(clients[k], GameIdKey(g));
          return true;
        }
        k := k + 1;
      }
      assert forall j :: 0 <= j < |clients| ==> !Matches(clients[j], GameIdKey(g));
      return false;
    }

    /** cleanupKnownClient on every non-null entry other than the client `r`. */
    method CleanupOthers(r: Ref)
      modifies this
      ensures clients == CleanupAll(old(clients), r)
      ensures events == old(events) && nextRef == old(nextRef)
    {
      ghost var orig := clients;
      var k := 0;
      while k < |clients|
        invariant 0 <= k <= |clients| == |orig|
        invariant forall j :: 0 <= j < k ==> clients[j] == CleanupSlot(orig[j], r)
        invariant forall j :: k <= j < |clients| ==> clients[j] == orig[j]
        invariant events == old(events) && nextRef == old(nextRef)
      {
        var slot := clients[k];
        if slot.Live? && slot.client.ref != r {
          clients := clients[k := Live(CleanupKnownClient(slot.client, r))];
        }
        k := k + 1;
      }
    }

    /** The erase loop applied to the server's list: the survivors stay and the callbacks are logged. */
    method EraseMatching(key: Key)
      modifies this
      ensures clients == Erase(old(clients), key)
      ensures events == old(events) + DisconnectedEvents(old(clients), key)
      ensures nextRef == old(nextRef)
    {
      var list, fired := EraseLoop(clients, key);
      events := events + fired;
      clients := list;
    }

    /**
     * removeClient: false and no change for an unknown game id; otherwise every other client forgets
     * the first client with that id, that client is erased with the rest keeping their order, one
     * disconnected callback fires, and the result is true.
     */
    method RemoveClient(g: GameId) returns (ok: bool)
      requires Valid()
      modifies this
      ensures Valid() && nextRef == old(nextRef)
      ensures ok <==> FirstMatch(old(clients), GameIdKey(g)).Some?
      ensures !ok ==> clients == old(clients) && events == old(events)
      ensures ok ==>
        var i := FirstMatch(old(clients), GameIdKey(g)).value;
        var c := CleanupAll(old(clients), old(clients)[i].client.ref);
        && clients == c[..i] + c[i + 1..]
        && events == old(events) + [ClientDisconnected(g)]
    {
      var found := Find(GameIdKey(g));
      if found.None? {
        return false;
      }
      var i := found.value;
      var r := clients[i].client.ref;
      RemoveEntryErase(clients, nextRef, i, RefKey(r));
      RemoveEntryForgets(clients, nextRef, i);
      CleanupOthers(r);
      EraseMatching(RefKey(r));
      return true;
    }

    /** removeAllClients: false on an empty list; otherwise every client is dropped (no callback fires) and the result is true. */
    method RemoveAllClients() returns (ok: bool)
      requires Valid()
      modifies this
      ensures Valid() && nextRef == old(nextRef) && events == old(events)
      ensures ok <==> old(clients) != []
      ensures clients == []
    {
      if clients == [] {
        return false;
      }
      clients := [];
      return true;
    }

    /** setClientPosition: false and no change for an unknown id; otherwise only the first match moves. */
    method SetClientPosition(g: GameId, position: Vec3, rotation: real) returns (ok: bool)
      requires Valid()
      modifies this
      ensures Valid() && nextRef == old(nextRef) && events == old(events)
      ensures ok <==> FirstMatch(old(clients), GameIdKey(g)).Some?
      ensures clients == if !ok then old(clients) else
        var i := FirstMatch(old(clients), GameIdKey(g)).value;
        old(clients)[i := Live(SetPosition(old(clients)[i].client, position, rotation))]
    {
      var found := Find(GameIdKey(g));
      if found.None? {
        return false;
      }
      var i := found.value;
      clients := clients[i := Live(SetPosition(clients[i].client, position, rotation))];
      WellFormedShape(old(clients), clients, nextRef);
      return true;
    }

    /** setClientPositions: every update is applied in order, unknown ids are skipped; true iff all ids were found. */
    method SetClientPositions(updates: seq<PositionUpdate>) returns (ok: bool)
      requires Valid()
      modifies this
      ensures Valid() && nextRef == old(nextRef) && events == old(events)
      ensures clients == ApplyPositions(old(clients), updates)
      ensures ok == AllFound(old(clients), updates)
    {
      ghost var orig := clients;
      ok := true;
      var k := 0;
      while k < |updates|
        invariant 0 <= k <= |updates|
        invariant clients == ApplyPositions(orig, updates[..k])
        invariant ok == AllFound(orig, updates[..k])
        invariant events == old(events) && nextRef == old(nextRef)
      {
        var u := updates[k];
        assert updates[..k + 1][..k] == updates[..k] && updates[..k + 1][k] == u;
        assert ApplyPositions(orig, updates[..k + 1]) == ApplyPosition(clients, u);
        assert AllFound(orig, updates[..k + 1]) ==
          (AllFound(orig, updates[..k]) && FirstMatch(orig, GameIdKey(u.gameId)).Some?);
        ApplyPositionsShape(orig, updates[..k]);
        FirstMatchStable(orig, clients, GameIdKey(u.gameId));
        var found := Find(GameIdKey(u.gameId));
        if found.None? {
          ok := false;
        } else {
          var i := found.value;
          clients := clients[i := Live(SetPosition(clients[i].client, u.position, u.rotation))];
        }
        k := k + 1;
      }
      assert updates[..k] == updates;
      ApplyPositionsShape(orig, updates);
      WellFormedShape(orig, clients, nextRef);
      NoNullsShape(orig, clients);
    }

    /** setClientVoiceRange: any range is accepted; false and no change for an unknown id. */
    method SetClientVoiceRange(g: GameId, voiceRange: real) returns (ok: bool)
      requires Valid()
      modifies this
      ensures Valid() && nextRef == old(nextRef) && events == old(events)
      ensures ok <==> FirstMatch(old(clients), GameIdKey(g)).Some?
      ensures clients == if !ok then old(clients) else
        var i := FirstMatch(old(clients), GameIdKey(g)).value;
        old(clients)[i := Live(old(clients)[i].client.(voiceRange := voiceRange))]
    {
      var found := Find(GameIdKey(g));
      if found.None? {
        return false;
      }
      var i := found.value;
      clients := clients[i := Live(clients[i].client.(voiceRange := voiceRange))];
      WellFormedShape(old(clients), clients, nextRef);
      return true;
    }

    method SetClientNickname(g: GameId, nickname: string) returns (ok: bool)
      requires Valid()
      modifies this
      ensures Valid() && nextRef == old(nextRef) && events == old(events)
      ensures ok <==> FirstMatch(old(clients), GameIdKey(g)).Some?
      ensures clients == if !ok then old(clients) else
        var i := FirstMatch(old(clients), GameIdKey(g)).value;
        old(clients)[i := Live(old(clients)[i].client.(nickname := nickname))]
    {
      var found := Find(GameIdKey(g));
      if found.None? {
        return false;
      }
      var i := found.value;
      clients := clients[i := Live(clients[i].client.(nickname := nickname))];
      WellFormedShape(old(clients), clients, nextRef);
      return true;
    }

    /** setRelativePositionForClient: both clients must exist; only the listener's override for the speaker changes. */
    method SetRelativePositionForClient(listenerId: GameId, speakerId: GameId, position: Vec3) returns (ok: bool)
      requires Valid()
      modifies this
      ensures Valid() && nextRef == old(nextRef) && events == old(events)
      ensures ok <==> FirstMatch(old(clients), GameIdKey(listenerId)).Some? && FirstMatch(old(clients), GameIdKey(speakerId)).Some?
      ensures clients == if !ok then old(clients) else
        var li, si := FirstMatch(old(clients), GameIdKey(listenerId)).value, FirstMatch(old(clients), GameIdKey(speakerId)).value;
        old(clients)[li := Live(SetRelative(old(clients)[li].client, old(clients)[si].client.ref, position))]
    {
      var listener := Find(GameIdKey(listenerId));
      var speaker := Find(GameIdKey(speakerId));
      if listener.None? || speaker.None? {
        return false;
      }
      var li, si := listener.value, speaker.value;
      clients := clients[li := Live(SetRelative(clients[li].client, clients[si].client.ref, position))];
      WellFormedShape(old(clients), clients, nextRef);
      return true;
    }

    /** resetRelativePositionForClient: both clients must exist; only the listener's override for the speaker is dropped. */
    method ResetRelativePositionForClient(listenerId: GameId, speakerId: GameId) returns (ok: bool)
      requires Valid()
      modifies this
      ensures Valid() && nextRef == old(nextRef) && events == old(events)
      ensures ok <==> FirstMatch(old(clients), GameIdKey(listenerId)).Some? && FirstMatch(old(clients), GameIdKey(speakerId)).Some?
      ensures clients == if !ok then old(clients) else
        var li, si := FirstMatch(old(clients), GameIdKey(listenerId)).value, FirstMatch(old(clients), GameIdKey(speakerId)).value;
        old(clients)[li := Live(ResetRelative(old(clients)[li].client, old(clients)[si].client.ref))]
    {
      var listener := Find(GameIdKey(listenerId));
      var speaker := Find(GameIdKey(speakerId));
      if listener.None? || speaker.None? {
        return false;
      }
      var li, si := listener.value, speaker.value;
      clients := clients[li := Live(ResetRelative(clients[li].client, clients[si].client.ref))];
      WellFormedShape(old(clients), clients, nextRef);
      return true;
    }

    /** resetAllRelativePositions: the client's override map becomes empty. */
    method ResetAllRelativePositions(g: GameId) returns (ok: bool)
      requires Valid()
      modifies this
      ensures Valid() && nextRef == old(nextRef) && events == old(events)
      ensures ok <==> FirstMatch(old(clients), GameIdKey(g)).Some?
      ensures clients == if !ok then old(clients) else
        var i := FirstMatch(old(clients), GameIdKey(g)).value;
        old(clients)[i := Live(old(clients)[i].client.(relativeAudible := map[]))]
    {
      var found := Find(GameIdKey(g));
      if found.None? {
        return false;
      }
      var i := found.value;
      clients := clients[i := Live(clients[i].client.(relativeAudible := map[]))];
      WellFormedShape(old(clients), clients, nextRef);
      return true;
    }

    /** muteClientForAll: false and no change for an unknown id; otherwise the list becomes MuteForAll of it. */
    method MuteClientForAll(g: GameId, muted: bool) returns (ok: bool)
      requires Valid()
      modifies this
      ensures Valid() && nextRef == old(nextRef) && events == old(events)
      ensures ok <==> FirstMatch(old(clients), GameIdKey(g)).Some?
      ensures clients == if !ok then old(clients) else
        MuteForAll(old(clients), FirstMatch(old(clients), GameIdKey(g)).value, muted)
    {
      var found := Find(GameIdKey(g));
      if found.None? {
        return false;
      }
      var i := found.value;
      var target := clients[i].client.(muted := muted);
      clients := clients[i := Live(target)];
      ghost var s1 := clients;
      var k := 0;
      while k < |clients|
        invariant 0 <= k <= |clients| == |s1|
        invariant forall j :: 0 <= j < k ==> clients[j] == MuteForAllSlot(s1[j], target, muted)
        invariant forall j :: k <= j < |clients| ==> clients[j] == s1[j]
        invariant events == old(events) && nextRef == old(nextRef)
      {
        var slot := clients[k];
        if slot.Live? && slot.client.ref != target.ref {
          if muted {
            clients := clients[k := Live(RemoveAudible(slot.client, target.ref))];
          } else if InRange(target, slot.client) {
            clients := clients[k := Live(AddAudible(slot.client, target.ref))];
          }
        }
        k := k + 1;
      }
      assert clients == MuteForAll(old(clients), i, muted);
      WellFormedShape(old(clients), clients, nextRef);
      return true;
    }

    method IsClientMutedForAll(g: GameId) returns (b: bool)
      ensures b == MutedForAll(clients, g)
    {
      var found := Find(GameIdKey(g));
      if found.None? {
        return false;
      }
      return clients[found.value].client.muted;
    }

    /** muteClientForClient: both clients must exist; otherwise the list becomes MuteForClient of it. */
    method MuteClientForClient(speakerId: GameId, listenerId: GameId, muted: bool) returns (ok: bool)
      requires Valid()
      modifies this
      ensures Valid() && nextRef == old(nextRef) && events == old(events)
      ensures ok <==> FirstMatch(old(clients), GameIdKey(listenerId)).Some? && FirstMatch(old(clients), GameIdKey(speakerId)).Some?
      ensures clients == if !ok then old(clients) else
        MuteForClient(old(clients), FirstMatch(old(clients), GameIdKey(listenerId)).value,
                      FirstMatch(old(clients), GameIdKey(speakerId)).value, muted)
    {
      var listener := Find(GameIdKey(listenerId));
      var speaker := Find(GameIdKey(speakerId));
      if listener.None? || speaker.None? {
        return false;
      }
      var li, si := listener.value, speaker.value;
      var l := SetMutedClient(clients[li].client, clients[si].client.ref, muted);
      if muted {
        l := RemoveAudible(l, clients[si].client.ref);
      } else if InRange(clients[si].client, clients[li].client) {
        l := AddAudible(l, clients[si].client.ref);
      }
      clients := clients[li := Live(l)];
      WellFormedShape(old(clients), clients, nextRef);
      return true;
    }

    method IsClientMutedForClient(speakerId: GameId, listenerId: GameId) returns (b: bool)
      ensures b == MutedForClient(clients, speakerId, listenerId)
    {
      var listener := Find(GameIdKey(listenerId));
      var speaker := Find(GameIdKey(speakerId));
      if listener.None? || speaker.None? {
        return false;
      }
      return clients[speaker.value].client.ref in clients[listener.value].client.mutedClients;
    }

    /** The inner loop of updateClients for the listener at index k. */
    method UpdateAudibleOf(k: nat)
      requires k < |clients| && clients[k].Live?
      modifies this
      ensures clients == old(clients)[k := Live(old(clients)[k].client.(audibleClients := PassAudible(old(clients)[k].client, old(clients))))]
      ensures events == old(events) && nextRef == old(nextRef)
    {
      ghost var orig := clients;
      var c := clients[k].client;
      var m := 0;
      while m < |clients|
        invariant 0 <= m <= |orig|
        invariant clients == orig[k := Live(c.(audibleClients := PassAudible(c, orig[..m])))]
        invariant events == old(events) && nextRef == old(nextRef)
      {
        assert orig[..m + 1][..m] == orig[..m];
        var speaker := clients[m];
        if speaker.Null? || speaker.client.ref == c.ref {
          m := m + 1;
          continue;
        }
        if !c.positionChanged && !speaker.client.positionChanged {
          m := m + 1;
          continue;
        }
        if InRange(speaker.client, c) {
          clients := clients[k := Live(AddAudible(clients[k].client, speaker.client.ref))];
        } else {
          clients := clients[k := Live(RemoveAudible(clients[k].client, speaker.client.ref))];
        }
        m := m + 1;
      }
      assert orig[..m] == orig;
    }

    /**
     * One pass of the updateClients loop: each connected client's audible set is recomputed against
     * every other client, then every position flag is reset. Sending the update and position packets
     * is not modelled.
     */
    method UpdateClients()
      requires Valid()
      modifies this
      ensures Valid() && nextRef == old(nextRef) && events == old(events)
      ensures clients == ResetFlags(AudibilityPass(old(clients)))
    {
      ghost var orig := clients;
      var k := 0;
      while k < |clients|
        invariant 0 <= k <= |clients| == |orig|
        invariant forall j :: 0 <= j < k ==> clients[j] == PassSlot(orig[j], orig)
        invariant forall j :: k <= j < |clients| ==> clients[j] == orig[j]
        invariant SameGeometry(orig, clients)
        invariant events == old(events) && nextRef == old(nextRef)
      {
        var slot := clients[k];
        if slot.Null? || !slot.client.connected {
          k := k + 1;
          continue;
        }
        ghost var before := clients;
        UpdateAudibleOf(k);
        PassAudibleStable(orig[k].client, orig, before);
        k := k + 1;
      }
      assert clients == AudibilityPass(orig);
      ghost var passed := clients;
      k := 0;
      while k < |clients|
        invariant 0 <= k <= |clients| == |passed|
        invariant forall j :: 0 <= j < k ==> clients[j] == ResetFlagSlot(passed[j])
        invariant forall j :: k <= j < |clients| ==> clients[j] == passed[j]
        invariant events == old(events) && nextRef == old(nextRef)
      {
        if clients[k].Live? {
          clients := clients[k := Live(clients[k].client.(positionChanged := false))];
        }
        k := k + 1;
      }
      assert clients == ResetFlags(passed);
      UpdatePassEffect(orig, nextRef);
      WellFormedShape(orig, clients, nextRef);
    }

    /**
     * onClientDisconnect: the client of the peer (if any) is forgotten by every other client, then
     * every entry of that peer is erased with a disconnected callback. The cleanup loop dereferences
     * every entry but the leaving one without a null check, which is safe because `Valid` excludes nulls.
     */
    method OnClientDisconnect(peer: Peer)
      requires Valid()
      modifies this
      ensures Valid() && nextRef == old(nextRef)
      ensures FirstMatch(old(clients), PeerKey(peer)).None? ==> clients == old(clients) && events == old(events)
      ensures FirstMatch(old(clients), PeerKey(peer)).Some? ==>
        var i := FirstMatch(old(clients), PeerKey(peer)).value;
        var c := CleanupAll(old(clients), old(clients)[i].client.ref);
        && clients == c[..i] + c[i + 1..]
        && events == old(events) + [ClientDisconnected(old(clients)[i].client.gameId)]
    {
      var found := Find(PeerKey(peer));
      if found.Some? {
        var i := found.value;
        RemoveEntryErase(clients, nextRef, i, PeerKey(peer));
        RemoveEntryForgets(clients, nextRef, i);
        CleanupOthers(clients[i].client.ref);
      } else {
        EraseNoMatch(clients, PeerKey(peer));
      }
      EraseMatching(PeerKey(peer));
    }

    /**
     * handleHandshake after decoding: a bad status fires the rejected callback; a zero TeamSpeak id
     * only gets the handshake response; a peer that already has a client, or a client the connecting
     * callback rejects, changes nothing; otherwise exactly one new client is appended at the end and
     * the connected callback fires.
     */
    method HandleHandshake(peer: Peer, packet: HandshakePacket, accepted: bool)
      requires Valid()
      modifies this
      ensures Valid()
      ensures packet.status.StatusError? ==>
        clients == old(clients) && nextRef == old(nextRef) &&
        events == old(events) + [ClientRejected(packet.gameId, packet.status.code)]
      ensures packet.status.StatusOk? && !Admits(old(clients), peer, packet, accepted) ==>
        clients == old(clients) && nextRef == old(nextRef) && events == old(events)
      ensures Admits(old(clients), peer, packet, accepted) ==>
        && clients == old(clients) + [Live(NewClient(old(nextRef), peer, packet.gameId, packet.teamspeakId))]
        && nextRef == old(nextRef) + 1
        && events == old(events) + [ClientConnected(packet.gameId)]
        && FirstMatch(clients, PeerKey(peer)) == Some(|old(clients)|)
    {
      if packet.status.StatusError? {
        events := events + [ClientRejected(packet.gameId, packet.status.code)];
        return;
      }
      if packet.teamspeakId == 0 {
        return;
      }
      var existing := Find(PeerKey(peer));
      if existing.Some? {
        return;
      }
      if !accepted {
        return;
      }
      AdmissionWellFormed(clients, nextRef, peer, packet, accepted);
      clients := clients + [Live(NewClient(nextRef, peer, packet.gameId, packet.teamspeakId))];
      nextRef := nextRef + 1;
      events := events + [ClientConnected(packet.gameId)];
    }
  }
}
