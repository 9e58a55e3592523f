/**
 * The client list of the voice server as a sequence of entries: lookups, the erase loops of
 * removeClient and onClientDisconnect, batch position updates and admission at handshake, as pure
 * functions with the properties the server relies on.
 */
module Registry {
  import opened Wrappers
  import opened Clients

  /** The notifications the server hands to its registered callbacks, in dispatch order. */
  datatype Event =
    | ClientConnected(gameId: GameId)
    | ClientDisconnected(gameId: GameId)
    | ClientRejected(gameId: GameId, statusCode: int)

  /** What a linear search of the list compares: a field of the client, or the client pointer itself. */
  datatype Key =
    | GameIdKey(gameId: GameId)
    | TeamspeakKey(teamspeakId: TeamspeakId)
    | PeerKey(peer: Peer)
    | RefKey(ref: Ref)

  /** The fields of an entry that never change while it is in the list. */
  datatype Identity = NoIdentity | Identity(ref: Ref, peer: Peer, gameId: GameId, teamspeakId: TeamspeakId)

  function IdentityOf(slot: Slot): Identity
  {
    match slot
    case Null => NoIdentity
    case Live(c) => Identity(c.ref, c.peer, c.gameId, c.teamspeakId)
  }

  /** A null entry matches nothing. */
  predicate Matches(slot: Slot, key: Key)
  {
    match IdentityOf(slot)
    case NoIdentity => false
    case Identity(r, p, g, t) =>
      match key
      case GameIdKey(g') => g == g'
      case TeamspeakKey(t') => t == t'
      case PeerKey(p') => p == p'
      case RefKey(r') => r == r'
  }

  /** The index of the first entry that matches, as clientByGameId, clientByTeamspeakId and clientByPeer return it. */
  function FirstMatch(s: seq<Slot>, key: Key): (r: Option<nat>)
    ensures r.Some? ==> r.value < |s| && Matches(s[r.value], key)
    ensures r.Some? ==> forall j :: 0 <= j < r.value ==> !Matches(s[j], key)
    ensures r.None? <==> forall j :: 0 <= j < |s| ==> !Matches(s[j], key)
  {
    if s == [] then None
    else if Matches(s[0], key) then Some(0)
    else match FirstMatch(s[1..], key)
      case None => None
      case Some(i) => Some(i + 1)
  }

  /** Two lists whose entries have the same identities, position by position. */
  ghost predicate SameShape(s: seq<Slot>, t: seq<Slot>)
  {
    |s| == |t| && forall j :: 0 <= j < |s| ==> IdentityOf(s[j]) == IdentityOf(t[j])
  }

  /** Updating the fields of clients in place never changes what a lookup finds. */
  lemma FirstMatchStable(s: seq<Slot>, t: seq<Slot>, key: Key)
    requires SameShape(s, t)
    ensures FirstMatch(s, key) == FirstMatch(t, key)
  {
    forall j | 0 <= j < |s| ensures Matches(s[j], key) == Matches(t[j], key) {
      assert IdentityOf(s[j]) == IdentityOf(t[j]);
    }
  }

  /**
   * What the server maintains about its list: every Client was allocated before (its ref is below
   * `nextRef`), no Client object is listed twice, and no peer has two clients.
   */
  ghost predicate WellFormed(s: seq<Slot>, nextRef: nat)
  {
    && (forall j :: 0 <= j < |s| && s[j].Live? ==> s[j].client.ref < nextRef)
    && RefsDistinct(s)
    && (forall j, k :: 0 <= j < |s| && 0 <= k < |s| && j != k && s[j].Live? && s[k].Live? ==>
          s[j].client.peer != s[k].client.peer)
  }

  /** No client object appears twice among the live entries. */
  ghost predicate RefsDistinct(s: seq<Slot>)
  {
    forall j, k :: 0 <= j < |s| && 0 <= k < |s| && j != k && s[j].Live? && s[k].Live? ==>
      s[j].client.ref != s[k].client.ref
  }

  /** No null entry: the server only ever appends clients it has just allocated. */
  ghost predicate NoNulls(s: seq<Slot>)
  {
    forall j :: 0 <= j < |s| ==> s[j].Live?
  }

  /** Changing clients' fields in place keeps the list well formed. */
  lemma WellFormedShape(s: seq<Slot>, t: seq<Slot>, n: nat)
    requires WellFormed(s, n) && SameShape(s, t)
    ensures WellFormed(t, n)
  {
    forall j | 0 <= j < |s| ensures t[j].Live? == s[j].Live?
      ensures t[j].Live? ==> t[j].client.ref == s[j].client.ref && t[j].client.peer == s[j].client.peer
    {
      assert IdentityOf(s[j]) == IdentityOf(t[j]);
    }
  }

  /** Changing clients' fields in place never puts a null into the list. */
  lemma NoNullsShape(s: seq<Slot>, t: seq<Slot>)
    requires NoNulls(s) && SameShape(s, t)
    ensures NoNulls(t)
  {
    forall j | 0 <= j < |t| ensures t[j].Live? {
      assert IdentityOf(s[j]) == IdentityOf(t[j]);
    }
  }

  // ---------------------------------------------------------------------------------------------
  // Removal: cleanupKnownClient on the others, then erase every entry that matches.

  function CleanupSlot(slot: Slot, r: Ref): Slot
  {
    if slot.Live? && slot.client.ref != r then Live(CleanupKnownClient(slot.client, r)) else slot
  }

  /** Every other non-null client forgets the leaving client `r`. */
  function CleanupAll(s: seq<Slot>, r: Ref): seq<Slot>
  {
    seq(|s|, j requires 0 <= j < |s| => CleanupSlot(s[j], r))
  }

  /** The list after the erase loop: the entries that do not match, in their original order. */
  function Erase(s: seq<Slot>, key: Key): seq<Slot>
  {
    if s == [] then []
    else Erase(s[..|s| - 1], key) + (if Matches(s[|s| - 1], key) then [] else [s[|s| - 1]])
  }

  /** The disconnected callbacks the erase loop fires: one per erased entry, in list order. */
  function DisconnectedEvents(s: seq<Slot>, key: Key): seq<Event>
  {
    if s == [] then []
    else DisconnectedEvents(s[..|s| - 1], key) +
         (if Matches(s[|s| - 1], key) then [ClientDisconnected(s[|s| - 1].client.gameId)] else [])
  }

  /** One more entry through the erase loop. */
  lemma EraseStep(s: seq<Slot>, m: nat, key: Key)
    requires m < |s|
    ensures Erase(s[..m + 1], key) == Erase(s[..m], key) + (if Matches(s[m], key) then [] else [s[m]])
    ensures DisconnectedEvents(s[..m + 1], key) == DisconnectedEvents(s[..m], key) +
      (if Matches(s[m], key) then [ClientDisconnected(s[m].client.gameId)] else [])
  {
    assert s[..m + 1][..m] == s[..m];
  }

  /**
   * The erase loop's step: with `kept` the survivors of the first m entries and `fired` their
   * callbacks, the list being erased in place is `kept` followed by the unvisited entries, and
   * visiting entry m either erases it and fires a callback or keeps it and moves on.
   */
  lemma EraseLoopStep(s: seq<Slot>, m: nat, kept: seq<Slot>, fired: seq<Event>, list: seq<Slot>, key: Key)
    requires m < |s| && kept == Erase(s[..m], key) && fired == DisconnectedEvents(s[..m], key)
    requires list == kept + s[m..]
    ensures |kept| < |list| && list[|kept|] == s[m]
    ensures Matches(s[m], key) ==>
      && Erase(s[..m + 1], key) == kept
      && DisconnectedEvents(s[..m + 1], key) == fired + [ClientDisconnected(s[m].client.gameId)]
      && list[..|kept|] + list[|kept| + 1..] == kept + s[m + 1..]
    ensures !Matches(s[m], key) ==>
      && Erase(s[..m + 1], key) == kept + [s[m]]
      && DisconnectedEvents(s[..m + 1], key) == fired
      && list == (kept + [s[m]]) + s[m + 1..]
  {
    assert s[m..] == [s[m]] + s[m + 1..];
    EraseStep(s, m, key);
    assert list[..|kept|] == kept && list[|kept| + 1..] == s[m + 1..];
  }

  /** Erasing distributes over concatenation: the survivors of each part stay in order. */
  lemma {:induction false} EraseAppend(a: seq<Slot>, b: seq<Slot>, key: Key)
    ensures Erase(a + b, key) == Erase(a, key) + Erase(b, key)
    ensures DisconnectedEvents(a + b, key) == DisconnectedEvents(a, key) + DisconnectedEvents(b, key)
    decreases |b|
  {
    if b == [] {
      assert a + b == a;
    } else {
      var b' := b[..|b| - 1];
      assert (a + b)[..|a + b| - 1] == a + b';
      EraseAppend(a, b', key);
    }
  }

  /** A list with no matching entry is left as it is and fires nothing. */
  lemma {:induction false} EraseNoMatch(s: seq<Slot>, key: Key)
    requires forall j :: 0 <= j < |s| ==> !Matches(s[j], key)
    ensures Erase(s, key) == s && DisconnectedEvents(s, key) == []
    decreases |s|
  {
    if s != [] {
      EraseNoMatch(s[..|s| - 1], key);
    }
  }

  /** The erase loop removes exactly the matching entries. */
  lemma {:induction false} EraseMembers(s: seq<Slot>, key: Key)
    ensures forall x :: x in Erase(s, key) <==> x in s && !Matches(x, key)
    ensures |Erase(s, key)| + |DisconnectedEvents(s, key)| == |s|
    decreases |s|
  {
    if s != [] {
      var p := s[..|s| - 1];
      EraseMembers(p, key);
      assert s == p + [s[|s| - 1]];
    }
  }

  /** When exactly one entry matches, erasing removes that one entry and keeps the rest in order. */
  lemma {:induction false} EraseSingle(s: seq<Slot>, i: nat, key: Key)
    requires i < |s| && Matches(s[i], key)
    requires forall j :: 0 <= j < |s| && j != i ==> !Matches(s[j], key)
    ensures Erase(s, key) == s[..i] + s[i + 1..]
    decreases |s|
  {
    var n := |s| - 1;
    var p := s[..n];
    if i == n {
      EraseNoMatch(p, key);
    } else {
      EraseSingle(p, i, key);
      assert p[..i] == s[..i] && p[i + 1..] + [s[n]] == s[i + 1..];
    }
  }

  /** When exactly one entry matches, the erase loop fires exactly one disconnected callback, for that entry. */
  lemma {:induction false} EraseSingleFires(s: seq<Slot>, i: nat, key: Key)
    requires i < |s| && Matches(s[i], key)
    requires forall j :: 0 <= j < |s| && j != i ==> !Matches(s[j], key)
    ensures DisconnectedEvents(s, key) == [ClientDisconnected(s[i].client.gameId)]
    decreases |s|
  {
    var n := |s| - 1;
    var p := s[..n];
    if i == n {
      EraseNoMatch(p, key);
    } else {
      EraseSingleFires(p, i, key);
    }
  }

  /** Dropping one entry keeps the list well formed. */
  lemma RemoveAtWellFormed(s: seq<Slot>, n: nat, i: nat)
    requires WellFormed(s, n) && i < |s|
    ensures WellFormed(s[..i] + s[i + 1..], n)
  {
    var t := s[..i] + s[i + 1..];
    forall j | 0 <= j < |t| ensures t[j] == s[if j < i then j else j + 1] {
    }
  }

  /**
   * cleanupKnownClient on every other client keeps the identities of all entries and leaves no live
   * client other than `r` itself referring to `r`.
   */
  lemma CleanupAllEffect(s: seq<Slot>, n: nat, r: Ref)
    requires WellFormed(s, n)
    ensures SameShape(CleanupAll(s, r), s) && WellFormed(CleanupAll(s, r), n)
    ensures var c := CleanupAll(s, r);
      forall j :: 0 <= j < |c| && c[j].Live? && c[j].client.ref != r ==>
        && r !in c[j].client.audibleClients
        && r !in c[j].client.mutedClients
        && r !in c[j].client.relativeAudible
  {
    var c := CleanupAll(s, r);
    assert forall j :: 0 <= j < |c| ==> IdentityOf(c[j]) == IdentityOf(s[j]);
    WellFormedShape(s, c, n);
  }

  /**
   * removeClient (key = the client pointer) and onClientDisconnect (key = its peer) on a well-formed
   * list: the one leaving entry disappears, the others keep their order, one disconnected callback
   * fires, and no remaining entry matches the key.
   */
  lemma RemoveEntryErase(s: seq<Slot>, n: nat, i: nat, key: Key)
    requires WellFormed(s, n) && i < |s| && s[i].Live?
    requires key == RefKey(s[i].client.ref) || key == PeerKey(s[i].client.peer)
    ensures var c := CleanupAll(s, s[i].client.ref);
      && Erase(c, key) == c[..i] + c[i + 1..]
      && DisconnectedEvents(c, key) == [ClientDisconnected(s[i].client.gameId)]
      && forall j :: 0 <= j < |Erase(c, key)| ==> !Matches(Erase(c, key)[j], key)
  {
    var c := CleanupAll(s, s[i].client.ref);
    CleanupAllEffect(s, n, s[i].client.ref);
    assert IdentityOf(c[i]) == IdentityOf(s[i]);
    forall j | 0 <= j < |c| && j != i ensures !Matches(c[j], key) {
      assert IdentityOf(c[j]) == IdentityOf(s[j]);
    }
    EraseSingle(c, i, key);
    EraseSingleFires(c, i, key);
    EraseMembers(c, key);
  }

  /**
   * After the leaving entry `i` is dropped from the cleaned-up list, the rest is well formed, holds the
   * same clients as before in the same order, and no remaining client still refers to the one that left.
   */
  lemma RemoveEntryForgets(s: seq<Slot>, n: nat, i: nat)
    requires WellFormed(s, n) && i < |s| && s[i].Live?
    ensures var r := s[i].client.ref; var c := CleanupAll(s, r); var t := c[..i] + c[i + 1..];
      && WellFormed(t, n)
      && SameShape(t, s[..i] + s[i + 1..])
      && forall j :: 0 <= j < |t| && t[j].Live? ==>
        && r !in t[j].client.audibleClients
        && r !in t[j].client.mutedClients
        && r !in t[j].client.relativeAudible
  {
    var r := s[i].client.ref;
    var c := CleanupAll(s, r);
    CleanupAllEffect(s, n, r);
    RemoveAtWellFormed(c, n, i);
    var t := c[..i] + c[i + 1..];
    var u := s[..i] + s[i + 1..];
    forall j | 0 <= j < |t|
      ensures IdentityOf(t[j]) == IdentityOf(u[j])
      ensures t[j].Live? ==> r != t[j].client.ref
    {
      var k := if j < i then j else j + 1;
      assert t[j] == c[k] && u[j] == s[k] && k != i;
      assert IdentityOf(c[k]) == IdentityOf(s[k]) && IdentityOf(c[i]) == IdentityOf(s[i]);
    }
  }

  // ---------------------------------------------------------------------------------------------
  // Batch position updates (setClientPositions).

  datatype PositionUpdate = PositionUpdate(gameId: GameId, position: Vec3, rotation: real)

  /** One update: position and rotation of the first client with that game id, if any. */
  function ApplyPosition(s: seq<Slot>, u: PositionUpdate): seq<Slot>
  {
    match FirstMatch(s, GameIdKey(u.gameId))
    case None => s
    case Some(i) => s[i := Live(SetPosition(s[i].client, u.position, u.rotation))]
  }

  /** The updates applied in order. */
  function ApplyPositions(s: seq<Slot>, us: seq<PositionUpdate>): seq<Slot>
  {
    if us == [] then s else ApplyPosition(ApplyPositions(s, us[..|us| - 1]), us[|us| - 1])
  }

  /** Whether every update names a client in the list: the result of setClientPositions. */
  predicate AllFound(s: seq<Slot>, us: seq<PositionUpdate>)
  {
    forall k :: 0 <= k < |us| ==> FirstMatch(s, GameIdKey(us[k].gameId)).Some?
  }

  /** The index of the last update for game id `g`. */
  function LastUpdateFor(us: seq<PositionUpdate>, g: GameId): (r: Option<nat>)
    ensures r.Some? ==> r.value < |us| && us[r.value].gameId == g
    ensures r.Some? ==> forall k :: r.value < k < |us| ==> us[k].gameId != g
    ensures r.None? <==> forall k :: 0 <= k < |us| ==> us[k].gameId != g
  {
    if us == [] then None
    else if us[|us| - 1].gameId == g then Some(|us| - 1)
    else LastUpdateFor(us[..|us| - 1], g)
  }

  lemma {:induction false} ApplyPositionsShape(s: seq<Slot>, us: seq<PositionUpdate>)
    ensures SameShape(s, ApplyPositions(s, us))
    decreases |us|
  {
    if us != [] {
      ApplyPositionsShape(s, us[..|us| - 1]);
    }
  }

  /**
   * The effect of a batch on one entry: the first client with a given game id takes the position
   * and rotation of the LAST update naming that id; every other entry (a null one, one shadowed by
   * an earlier client with the same id, or one no update names) is left as it was. Unknown ids in
   * the batch do not stop the updates after them.
   */
  lemma {:induction false} ApplyPositionsEffect(s: seq<Slot>, us: seq<PositionUpdate>, j: nat)
    requires j < |s|
    ensures |ApplyPositions(s, us)| == |s|
    ensures var t := ApplyPositions(s, us);
      if s[j].Live? && FirstMatch(s, GameIdKey(s[j].client.gameId)) == Some(j)
         && LastUpdateFor(us, s[j].client.gameId).Some?
      then
        var u := us[LastUpdateFor(us, s[j].client.gameId).value];
        t[j] == Live(SetPosition(s[j].client, u.position, u.rotation))
      else t[j] == s[j]
    decreases |us|
  {
    ApplyPositionsShape(s, us);
    if us != [] {
      var us' := us[..|us| - 1];
      var u := us[|us| - 1];
      var p := ApplyPositions(s, us');
      ApplyPositionsEffect(s, us', j);
      ApplyPositionsShape(s, us');
      FirstMatchStable(s, p, GameIdKey(u.gameId));
      assert IdentityOf(s[j]) == IdentityOf(p[j]);
      if s[j].Live? {
        var g := s[j].client.gameId;
        if u.gameId != g {
          assert LastUpdateFor(us, g) == LastUpdateFor(us', g);
        }
      }
    }
  }

  // ---------------------------------------------------------------------------------------------
  // Admission at handshake.

  /** The status code of a handshake packet: the OK code of the protocol, or any other code. */
  datatype HandshakeStatus = StatusOk | StatusError(code: int)

  /** The decoded handshake packet (decoding is not part of this model). */
  datatype HandshakePacket = HandshakePacket(status: HandshakeStatus, gameId: GameId, teamspeakId: TeamspeakId)

  /**
   * Whether handleHandshake appends a client: the status is OK, the TeamSpeak id is known (nonzero),
   * the peer has no client yet, and the connecting callback did not reject it.
   */
  predicate Admits(s: seq<Slot>, peer: Peer, packet: HandshakePacket, accepted: bool)
  {
    packet.status.StatusOk? && packet.teamspeakId != 0 && FirstMatch(s, PeerKey(peer)).None? && accepted
  }

  /** The admitted client is new and its peer is unique, so the list stays well formed. */
  lemma AdmissionWellFormed(s: seq<Slot>, n: nat, peer: Peer, packet: HandshakePacket, accepted: bool)
    requires WellFormed(s, n) && Admits(s, peer, packet, accepted)
    ensures var t := s + [Live(NewClient(n, peer, packet.gameId, packet.teamspeakId))];
      WellFormed(t, n + 1) && FirstMatch(t, PeerKey(peer)) == Some(|s|)
  {
    var t := s + [Live(NewClient(n, peer, packet.gameId, packet.teamspeakId))];
    assert forall j :: 0 <= j < |s| ==> t[j] == s[j];
    assert forall j :: 0 <= j < |s| && s[j].Live? ==> s[j].client.peer != peer by {
      forall j | 0 <= j < |s| && s[j].Live? ensures s[j].client.peer != peer {
        assert !Matches(s[j], PeerKey(peer));
      }
    }
    assert Matches(t[|s|], PeerKey(peer));
    assert forall j :: 0 <= j < |s| ==> !Matches(t[j], PeerKey(peer));
  }
}
