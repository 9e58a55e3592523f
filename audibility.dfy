/**
 * Who hears whom: the two mute layers (muted for everyone, one listener muting one speaker), the
 * relative-position overrides, and one pass of the periodic audibility update, as pure functions
 * over the client list.
 */
module Audibility {
  import opened Wrappers
  import opened Clients
  import opened Registry

  /** An entry with its audible set blanked out: everything the audibility pass leaves alone. */
  function WithoutAudible(slot: Slot): Slot
  {
    match slot
    case Null => Null
    case Live(c) => Live(c.(audibleClients := {}))
  }

  /** Two lists that differ at most in the clients' audible sets. */
  ghost predicate SameGeometry(s: seq<Slot>, t: seq<Slot>)
  {
    |s| == |t| && forall j :: 0 <= j < |s| ==> WithoutAudible(s[j]) == WithoutAudible(t[j])
  }

  // ---------------------------------------------------------------------------------------------
  // Queries.

  /** isClientMutedForAll: the muted flag of the first client with that game id, false when there is none. */
  function MutedForAll(s: seq<Slot>, g: GameId): bool
  {
    match FirstMatch(s, GameIdKey(g))
    case None => false
    case Some(i) => s[i].client.muted
  }

  /** isClientMutedForClient: whether the listener has muted the speaker, false when either is unknown. */
  function MutedForClient(s: seq<Slot>, speakerId: GameId, listenerId: GameId): bool
  {
    match (FirstMatch(s, GameIdKey(listenerId)), FirstMatch(s, GameIdKey(speakerId)))
    case (Some(l), Some(sp)) => s[sp].client.ref in s[l].client.mutedClients
    case _ => false
  }

  // ---------------------------------------------------------------------------------------------
  // muteClientForAll.

  /** What the loop of muteClientForAll does to one entry; `target` is the client whose flag changed. */
  function MuteForAllSlot(slot: Slot, target: ClientRecord, muted: bool): Slot
  {
    if slot.Live? && slot.client.ref != target.ref then
      if muted then Live(RemoveAudible(slot.client, target.ref))
      else if InRange(target, slot.client) then Live(AddAudible(slot.client, target.ref))
      else slot
    else slot
  }

  /**
   * muteClientForAll on the client at index i: its flag is set; when muting, no other client hears it
   * any more; when unmuting, exactly the others in its range hear it in addition to whoever already
   * did. Its own audible set and every other field of every client are unchanged.
   */
  function MuteForAll(s: seq<Slot>, i: nat, muted: bool): (t: seq<Slot>)
    requires i < |s| && s[i].Live?
    ensures SameShape(s, t)
    ensures t[i] == Live(s[i].client.(muted := muted))
    ensures forall j :: 0 <= j < |s| && j != i ==> WithoutAudible(t[j]) == WithoutAudible(s[j])
    ensures var r := s[i].client.ref;
      forall j :: 0 <= j < |s| && t[j].Live? ==>
        t[j].client.audibleClients - {r} == s[j].client.audibleClients - {r}
    ensures var r := s[i].client.ref;
      forall j :: 0 <= j < |s| && s[j].Live? && s[j].client.ref != r ==>
        if muted then r !in t[j].client.audibleClients
        else (r in t[j].client.audibleClients <==>
              r in s[j].client.audibleClients || InRange(s[i].client, s[j].client))
  {
    var target := s[i].client.(muted := muted);
    var s1 := s[i := Live(target)];
    seq(|s1|, j requires 0 <= j < |s1| => MuteForAllSlot(s1[j], target, muted))
  }

  /** After muteClientForAll(g, m) succeeds, isClientMutedForAll(g) answers m. */
  lemma MuteForAllQuery(s: seq<Slot>, g: GameId, muted: bool)
    requires FirstMatch(s, GameIdKey(g)).Some?
    ensures MutedForAll(MuteForAll(s, FirstMatch(s, GameIdKey(g)).value, muted), g) == muted
  {
    var i := FirstMatch(s, GameIdKey(g)).value;
    FirstMatchStable(s, MuteForAll(s, i, muted), GameIdKey(g));
  }

  /**
   * Muting and unmuting for everyone leaves each other client hearing the client exactly when it is
   * in range, whatever that client heard before.
   */
  lemma MuteUnmuteForAll(s: seq<Slot>, i: nat)
    requires i < |s| && s[i].Live?
    ensures var t := MuteForAll(MuteForAll(s, i, true), i, false); var r := s[i].client.ref;
      && t[i] == Live(s[i].client.(muted := false))
      && forall j :: 0 <= j < |s| && s[j].Live? && s[j].client.ref != r ==>
           (r in t[j].client.audibleClients <==> InRange(s[i].client, s[j].client))
  {
    var t1 := MuteForAll(s, i, true);
    forall j | 0 <= j < |s| && s[j].Live? && s[j].client.ref != s[i].client.ref
      ensures t1[j].Live? && t1[j].client.ref == s[j].client.ref
      ensures InRange(t1[i].client, t1[j].client) == InRange(s[i].client, s[j].client)
    {
      assert WithoutAudible(t1[j]) == WithoutAudible(s[j]);
    }
  }

  // ---------------------------------------------------------------------------------------------
  // muteClientForClient.

  /** The listener after muteClientForClient: the speaker is recorded as muted or not, then dropped from or (if in range) added to what the listener hears. */
  function MuteForClientRecord(listener: ClientRecord, speaker: ClientRecord, muted: bool): ClientRecord
  {
    var l := SetMutedClient(listener, speaker.ref, muted);
    if muted then RemoveAudible(l, speaker.ref)
    else if InRange(speaker, listener) then AddAudible(l, speaker.ref)
    else l
  }

  /**
   * muteClientForClient with the listener at index li and the speaker at index si: only the listener
   * changes, and only in its entries for the speaker.
   */
  function MuteForClient(s: seq<Slot>, li: nat, si: nat, muted: bool): (t: seq<Slot>)
    requires li < |s| && si < |s| && s[li].Live? && s[si].Live?
    ensures SameShape(s, t)
    ensures forall j :: 0 <= j < |s| && j != li ==> t[j] == s[j]
    ensures var l, r := s[li].client, s[si].client.ref;
      && t[li] == Live(l.(mutedClients := t[li].client.mutedClients, audibleClients := t[li].client.audibleClients))
      && t[li].client.mutedClients - {r} == l.mutedClients - {r}
      && t[li].client.audibleClients - {r} == l.audibleClients - {r}
      && (r in t[li].client.mutedClients <==> muted)
      && (muted ==> r !in t[li].client.audibleClients)
      && (!muted ==> (r in t[li].client.audibleClients <==>
                      r in l.audibleClients || InRange(s[si].client, l)))
  {
    s[li := Live(MuteForClientRecord(s[li].client, s[si].client, muted))]
  }

  /** After muteClientForClient(speaker, listener, m) succeeds, isClientMutedForClient(speaker, listener) answers m. */
  lemma MuteForClientQuery(s: seq<Slot>, speakerId: GameId, listenerId: GameId, muted: bool)
    requires FirstMatch(s, GameIdKey(listenerId)).Some? && FirstMatch(s, GameIdKey(speakerId)).Some?
    ensures var li, si := FirstMatch(s, GameIdKey(listenerId)).value, FirstMatch(s, GameIdKey(speakerId)).value;
      MutedForClient(MuteForClient(s, li, si, muted), speakerId, listenerId) == muted
  {
    var li, si := FirstMatch(s, GameIdKey(listenerId)).value, FirstMatch(s, GameIdKey(speakerId)).value;
    var t := MuteForClient(s, li, si, muted);
    FirstMatchStable(s, t, GameIdKey(listenerId));
    FirstMatchStable(s, t, GameIdKey(speakerId));
    assert IdentityOf(t[si]) == IdentityOf(s[si]);
  }

  // ---------------------------------------------------------------------------------------------
  // Relative-position overrides.

  /** The listener's overrides after setRelativePositionForClient; reading back the speaker gives the position just set. */
  function SetRelative(listener: ClientRecord, speaker: Ref, position: Vec3): (c: ClientRecord)
    ensures speaker in c.relativeAudible && c.relativeAudible[speaker] == position
    ensures c.relativeAudible.Keys == listener.relativeAudible.Keys + {speaker}
    ensures forall r :: r in listener.relativeAudible && r != speaker ==> c.relativeAudible[r] == listener.relativeAudible[r]
    ensures c == listener.(relativeAudible := c.relativeAudible)
  {
    listener.(relativeAudible := listener.relativeAudible[speaker := position])
  }

  /** The listener's overrides after resetRelativePositionForClient: the speaker's override is gone, the others are kept. */
  function ResetRelative(listener: ClientRecord, speaker: Ref): (c: ClientRecord)
    ensures c.relativeAudible.Keys == listener.relativeAudible.Keys - {speaker}
    ensures forall r :: r in c.relativeAudible ==> c.relativeAudible[r] == listener.relativeAudible[r]
    ensures c == listener.(relativeAudible := c.relativeAudible)
  {
    listener.(relativeAudible := listener.relativeAudible - {speaker})
  }

  /** Setting an override and resetting it leaves the listener as a reset alone would. */
  lemma SetThenResetRelative(listener: ClientRecord, speaker: Ref, position: Vec3)
    ensures ResetRelative(SetRelative(listener, speaker, position), speaker) == ResetRelative(listener, speaker)
  {
    var a := ResetRelative(SetRelative(listener, speaker, position), speaker).relativeAudible;
    var b := ResetRelative(listener, speaker).relativeAudible;
    assert a.Keys == b.Keys;
  }

  // ---------------------------------------------------------------------------------------------
  // One pass of updateClients.

  /**
   * The audible set of listener `c` after the inner loop over the entries `s`: for each other client
   * where either side moved since the last pass, it is added when in range and removed otherwise.
   */
  function PassAudible(c: ClientRecord, s: seq<Slot>): set<Ref>
  {
    if s == [] then c.audibleClients
    else
      var prev := PassAudible(c, s[..|s| - 1]);
      var slot := s[|s| - 1];
      if slot.Null? || slot.client.ref == c.ref then prev
      else if !c.positionChanged && !slot.client.positionChanged then prev
      else if InRange(slot.client, c) then prev + {slot.client.ref}
      else prev - {slot.client.ref}
  }

  /** Connected clients get their audible set recomputed; null entries and disconnected clients are skipped. */
  function PassSlot(slot: Slot, s: seq<Slot>): Slot
  {
    if slot.Live? && slot.client.connected then Live(slot.client.(audibleClients := PassAudible(slot.client, s)))
    else slot
  }

  function AudibilityPass(s: seq<Slot>): seq<Slot>
  {
    seq(|s|, j requires 0 <= j < |s| => PassSlot(s[j], s))
  }

  function ResetFlagSlot(slot: Slot): Slot
  {
    if slot.Live? then Live(slot.client.(positionChanged := false)) else slot
  }

  /** The final loop of a pass: every position flag is cleared. */
  function ResetFlags(s: seq<Slot>): seq<Slot>
  {
    seq(|s|, j requires 0 <= j < |s| => ResetFlagSlot(s[j]))
  }

  /** The inner loop reads only positions, ranges, flags and identities, never audible sets. */
  lemma {:induction false} PassAudibleStable(c: ClientRecord, s: seq<Slot>, t: seq<Slot>)
    requires SameGeometry(s, t)
    ensures PassAudible(c, s) == PassAudible(c, t)
    decreases |s|
  {
    if s != [] {
      var n := |s| - 1;
      assert SameGeometry(s[..n], t[..n]);
      PassAudibleStable(c, s[..n], t[..n]);
      assert WithoutAudible(s[n]) == WithoutAudible(t[n]);
    }
  }

  /** Whether `r` is the client of some live entry other than the listener `c`. */
  ghost predicate ListedOther(s: seq<Slot>, c: ClientRecord, r: Ref)
  {
    exists m :: 0 <= m < |s| && s[m].Live? && s[m].client.ref == r && r != c.ref
  }

  /**
   * For the listener `c` and a speaker listed in `s`: after the inner loop the listener hears the
   * speaker iff the speaker is in range, when either of them moved; otherwise as before. A client
   * that is not listed (or is the listener itself) keeps its audible status.
   */
  lemma {:induction false} PassAudibleEffect(c: ClientRecord, s: seq<Slot>, r: Ref)
    requires RefsDistinct(s)
    ensures forall m :: 0 <= m < |s| && s[m].Live? && s[m].client.ref == r && r != c.ref ==>
      (r in PassAudible(c, s) <==>
        if c.positionChanged || s[m].client.positionChanged then InRange(s[m].client, c)
        else r in c.audibleClients)
    ensures !ListedOther(s, c, r) ==> (r in PassAudible(c, s) <==> r in c.audibleClients)
    decreases |s|
  {
    if s != [] {
      var n := |s| - 1;
      var p := s[..n];
      assert RefsDistinct(p);
      PassAudibleEffect(c, p, r);
      if ListedOther(p, c, r) {
        var m :| 0 <= m < |p| && p[m].Live? && p[m].client.ref == r && r != c.ref;
        assert s[m] == p[m];
        assert ListedOther(s, c, r);
      }
      forall m | 0 <= m < n && s[m].Live? && s[m].client.ref == r && r != c.ref
        ensures (r in PassAudible(c, s) <==> r in PassAudible(c, p))
      {
        assert s[m] == p[m];
      }
    }
  }

  /**
   * One complete pass of updateClients on a well-formed list: for every connected listener l and
   * every other client s, s is audible to l afterwards iff s is in l's range, when l or s moved; pairs
   * where neither moved keep their status; clients not in the list keep their status; disconnected
   * listeners are untouched; every position flag ends up false; nothing else changes.
   */
  lemma UpdatePassEffect(s: seq<Slot>, n: nat)
    requires WellFormed(s, n)
    ensures var t := ResetFlags(AudibilityPass(s));
      && SameShape(s, t)
      && (forall j :: 0 <= j < |t| && t[j].Live? ==> !t[j].client.positionChanged)
      && (forall j :: 0 <= j < |t| ==> WithoutAudible(t[j]) == WithoutAudible(ResetFlagSlot(s[j])))
      && (forall l :: 0 <= l < |s| && s[l].Live? && !s[l].client.connected ==> t[l] == ResetFlagSlot(s[l]))
    ensures var t := ResetFlags(AudibilityPass(s));
      forall l, m :: 0 <= l < |s| && 0 <= m < |s| && s[l].Live? && s[m].Live? && s[l].client.connected
                     && s[m].client.ref != s[l].client.ref ==>
        (s[m].client.ref in t[l].client.audibleClients <==>
          if s[l].client.positionChanged || s[m].client.positionChanged
          then InRange(s[m].client, s[l].client)
          else s[m].client.ref in s[l].client.audibleClients)
    ensures var t := ResetFlags(AudibilityPass(s));
      forall l, r :: 0 <= l < |s| && s[l].Live? && !ListedOther(s, s[l].client, r) ==>
        (r in t[l].client.audibleClients <==> r in s[l].client.audibleClients)
  {
    var t := ResetFlags(AudibilityPass(s));
    assert RefsDistinct(s);
    forall l, m | 0 <= l < |s| && 0 <= m < |s| && s[l].Live? && s[m].Live? && s[l].client.connected
                  && s[m].client.ref != s[l].client.ref
      ensures s[m].client.ref in t[l].client.audibleClients <==>
          if s[l].client.positionChanged || s[m].client.positionChanged
          then InRange(s[m].client, s[l].client)
          else s[m].client.ref in s[l].client.audibleClients
    {
      PassAudibleEffect(s[l].client, s, s[m].client.ref);
    }
    forall l, r | 0 <= l < |s| && s[l].Live? && !ListedOther(s, s[l].client, r)
      ensures r in t[l].client.audibleClients <==> r in s[l].client.audibleClients
    {
      PassAudibleEffect(s[l].client, s, r);
    }
  }

  /** With no position flag set anywhere, the inner loop leaves the listener's audible set alone. */
  lemma {:induction false} PassAudibleQuiet(c: ClientRecord, s: seq<Slot>)
    requires !c.positionChanged
    requires forall j :: 0 <= j < |s| && s[j].Live? ==> !s[j].client.positionChanged
    ensures PassAudible(c, s) == c.audibleClients
    decreases |s|
  {
    if s != [] {
      PassAudibleQuiet(c, s[..|s| - 1]);
    }
  }

  /** A second pass right after a first one changes nothing: the first pass cleared every flag. */
  lemma UpdatePassIdempotent(s: seq<Slot>, n: nat)
    requires WellFormed(s, n)
    ensures ResetFlags(AudibilityPass(ResetFlags(AudibilityPass(s)))) == ResetFlags(AudibilityPass(s))
  {
    var t := ResetFlags(AudibilityPass(s));
    UpdatePassEffect(s, n);
    forall j | 0 <= j < |t| ensures PassSlot(t[j], t) == t[j] && ResetFlagSlot(t[j]) == t[j] {
      if t[j].Live? {
        PassAudibleQuiet(t[j].client, t);
      }
    }
  }
}
