/** Start-up rehydration of the expiry registry (`Moderation.cog_load`):
    the timers live only in memory, so on load one timer is scheduled per
    user with active strikes and one per active mute, from the store alone. */
module Recovery {
  import opened Options
  import opened Punishments

  /** `complete` is false when an exception ended the load early. */
  datatype Load = Load(complete: bool, store: Store)

  predicate IsTimed(p: Pun) {
    p.active && (p.kind == Strike || p.kind == Mute)
  }

  /** `find({'active': True, 'type': {'$in': ['strike', 'mute']}})`: every
      such document once, in whatever order the store returns them. */
  predicate IsPendingQuery(puns: map<PunId, Pun>, pending: seq<PunId>) {
    && (forall i :: 0 <= i < |pending| ==> pending[i] in puns && IsTimed(puns[pending[i]]))
    && (forall k :: k in puns && IsTimed(puns[k]) ==> k in pending)
    && NoDuplicates(pending)
  }

  /** The first delay of a user's strike timer: the time to `strike_check`,
      capped at 12 hours, or 0 when it is already past. */
  function StrikeDelay(check: int, now: int): (d: int)
    ensures 0 <= d <= TwelveHours
    ensures check > now ==> d == Coarse(check, now)
  {
    if check > now then Coarse(check, now) else 0
  }

  /** The loop of `cog_load` over the pending documents; `tracked` is
      `trackedStrikes`, the users whose strikes already have a timer. */
  function Rehydrate(s: Store, pending: seq<PunId>, tracked: seq<UserId>, now: int, guild: GuildId): Load
    requires forall i :: 0 <= i < |pending| ==> pending[i] in s.puns
    decreases |pending|
  {
    if pending == [] then Load(true, s)
    else
      var id := pending[0];
      var pun := s.puns[id];
      if pun.kind == Strike then
        if pun.user in tracked then Rehydrate(s, pending[1..], tracked, now, guild)
        else if pun.user !in s.users || s.users[pun.user].strikeCheck.None? then Load(false, s)
        else
          var delay := StrikeDelay(s.users[pun.user].strikeCheck.value, now);
          Rehydrate(Schedule(s, delay, id, guild), pending[1..], tracked + [pun.user], now, guild)
      else if pun.kind == Mute then
        if pun.expiry.None? then Load(false, s)
        else Rehydrate(Schedule(s, Coarse(pun.expiry.value, now), id, guild), pending[1..], tracked, now, guild)
      else Rehydrate(s, pending[1..], tracked, now, guild)
  }

  /** Rehydration only adds or replaces timers of pending ids. */
  lemma {:induction false} RehydrateFrame(s: Store, pending: seq<PunId>, tracked: seq<UserId>, now: int, guild: GuildId)
    requires forall i :: 0 <= i < |pending| ==> pending[i] in s.puns
    ensures var r := Rehydrate(s, pending, tracked, now, guild).store;
      && r.puns == s.puns && r.users == s.users && r.effects == s.effects
      && s.handles.Keys <= r.handles.Keys
      && (forall k :: k in r.handles && k !in s.handles ==> k in pending)
      && (forall k :: k in s.handles && k !in pending ==> r.handles[k] == s.handles[k])
    decreases |pending|
  {
    if pending != [] {
      var id := pending[0];
      var pun := s.puns[id];
      if pun.kind == Strike && pun.user !in tracked && pun.user in s.users && s.users[pun.user].strikeCheck.Some? {
        var delay := StrikeDelay(s.users[pun.user].strikeCheck.value, now);
        RehydrateFrame(Schedule(s, delay, id, guild), pending[1..], tracked + [pun.user], now, guild);
      } else if pun.kind == Mute && pun.expiry.Some? {
        RehydrateFrame(Schedule(s, Coarse(pun.expiry.value, now), id, guild), pending[1..], tracked, now, guild);
      } else if (pun.kind != Strike && pun.kind != Mute) || (pun.kind == Strike && pun.user in tracked) {
        RehydrateFrame(s, pending[1..], tracked, now, guild);
      }
    }
  }

  /** A load that runs to the end leaves a timer for every pending mute. */
  lemma {:induction false} RehydrateSchedulesMutes(s: Store, pending: seq<PunId>, tracked: seq<UserId>, now: int, guild: GuildId)
    requires forall i :: 0 <= i < |pending| ==> pending[i] in s.puns
    ensures var r := Rehydrate(s, pending, tracked, now, guild);
      r.complete ==> forall i :: 0 <= i < |pending| && s.puns[pending[i]].kind == Mute ==> pending[i] in r.store.handles
    decreases |pending|
  {
    if pending != [] {
      var id := pending[0];
      var pun := s.puns[id];
      if pun.kind == Strike && pun.user !in tracked && pun.user in s.users && s.users[pun.user].strikeCheck.Some? {
        var s' := Schedule(s, StrikeDelay(s.users[pun.user].strikeCheck.value, now), id, guild);
        RehydrateSchedulesMutes(s', pending[1..], tracked + [pun.user], now, guild);
      } else if pun.kind == Mute && pun.expiry.Some? {
        var s' := Schedule(s, Coarse(pun.expiry.value, now), id, guild);
        RehydrateSchedulesMutes(s', pending[1..], tracked, now, guild);
        RehydrateFrame(s', pending[1..], tracked, now, guild);
        assert id in s'.handles;
        forall i | 0 <= i < |pending| && s.puns[pending[i]].kind == Mute
          ensures Rehydrate(s, pending, tracked, now, guild).complete ==> pending[i] in Rehydrate(s, pending, tracked, now, guild).store.handles
        {
          if i > 0 { assert pending[i] == pending[1..][i - 1]; }
        }
      } else if (pun.kind != Strike && pun.kind != Mute) || (pun.kind == Strike && pun.user in tracked) {
        RehydrateSchedulesMutes(s, pending[1..], tracked, now, guild);
        forall i | 0 <= i < |pending| && s.puns[pending[i]].kind == Mute
          ensures Rehydrate(s, pending, tracked, now, guild).complete ==> pending[i] in Rehydrate(s, pending, tracked, now, guild).store.handles
        {
          if i > 0 { assert pending[i] == pending[1..][i - 1]; }
        }
      }
    }
  }

  /** Some pending strike of user `u` has a timer. */
  predicate HasStrikeTimer(puns: map<PunId, Pun>, handles: map<PunId, Timer>, pending: seq<PunId>, u: UserId) {
    exists j :: 0 <= j < |pending| && pending[j] in handles && pending[j] in puns
      && puns[pending[j]].kind == Strike && puns[pending[j]].user == u
  }

  lemma HasStrikeTimerTail(puns: map<PunId, Pun>, handles: map<PunId, Timer>, pending: seq<PunId>, u: UserId)
    requires pending != [] && HasStrikeTimer(puns, handles, pending[1..], u)
    ensures HasStrikeTimer(puns, handles, pending, u)
  {
    var j :| 0 <= j < |pending[1..]| && pending[1..][j] in handles && pending[1..][j] in puns
      && puns[pending[1..][j]].kind == Strike && puns[pending[1..][j]].user == u;
    assert pending[j + 1] == pending[1..][j];
  }

  /** A load that runs to the end leaves, for every pending strike of an
      untracked user, a timer on one of that user's pending strikes. */
  lemma {:induction false} RehydrateCoversStrikeUsers(s: Store, pending: seq<PunId>, tracked: seq<UserId>, now: int, guild: GuildId)
    requires forall i :: 0 <= i < |pending| ==> pending[i] in s.puns
    ensures var r := Rehydrate(s, pending, tracked, now, guild);
      r.complete ==>
        forall i :: 0 <= i < |pending| && s.puns[pending[i]].kind == Strike && s.puns[pending[i]].user !in tracked ==>
          HasStrikeTimer(s.puns, r.store.handles, pending, s.puns[pending[i]].user)
    decreases |pending|
  {
    if pending != [] {
      var id := pending[0];
      var pun := s.puns[id];
      var r := Rehydrate(s, pending, tracked, now, guild);
      var tail := pending[1..];
      assert forall i :: 0 < i < |pending| ==> pending[i] == tail[i - 1];
      if pun.kind == Strike && pun.user !in tracked && pun.user in s.users && s.users[pun.user].strikeCheck.Some? {
        var s' := Schedule(s, StrikeDelay(s.users[pun.user].strikeCheck.value, now), id, guild);
        RehydrateCoversStrikeUsers(s', tail, tracked + [pun.user], now, guild);
        RehydrateFrame(s', tail, tracked + [pun.user], now, guild);
        assert id in r.store.handles;
        if r.complete {
          forall i | 0 <= i < |pending| && s.puns[pending[i]].kind == Strike && s.puns[pending[i]].user !in tracked
            ensures HasStrikeTimer(s.puns, r.store.handles, pending, s.puns[pending[i]].user)
          {
            if s.puns[pending[i]].user != pun.user {
              HasStrikeTimerTail(s.puns, r.store.handles, pending, s.puns[pending[i]].user);
            }
          }
        }
      } else if pun.kind == Mute && pun.expiry.Some? {
        var s' := Schedule(s, Coarse(pun.expiry.value, now), id, guild);
        RehydrateCoversStrikeUsers(s', tail, tracked, now, guild);
        if r.complete {
          forall i | 0 <= i < |pending| && s.puns[pending[i]].kind == Strike && s.puns[pending[i]].user !in tracked
            ensures HasStrikeTimer(s.puns, r.store.handles, pending, s.puns[pending[i]].user)
          {
            HasStrikeTimerTail(s.puns, r.store.handles, pending, s.puns[pending[i]].user);
          }
        }
      } else if (pun.kind != Strike && pun.kind != Mute) || (pun.kind == Strike && pun.user in tracked) {
        RehydrateCoversStrikeUsers(s, tail, tracked, now, guild);
        if r.complete {
          forall i | 0 <= i < |pending| && s.puns[pending[i]].kind == Strike && s.puns[pending[i]].user !in tracked
            ensures HasStrikeTimer(s.puns, r.store.handles, pending, s.puns[pending[i]].user)
          {
            HasStrikeTimerTail(s.puns, r.store.handles, pending, s.puns[pending[i]].user);
          }
        }
      }
    }
  }

  /** What a timer scheduled by the load looks like: it belongs to a strike
      of a user not tracked at the start, or to a mute, and its first delay
      is at most 12 hours (and never negative for a strike). */
  predicate ScheduledWell(puns: map<PunId, Pun>, k: PunId, t: Timer, tracked: seq<UserId>, guild: GuildId) {
    && k in puns
    && t.guild == guild
    && t.delay <= TwelveHours
    && (puns[k].kind == Strike || puns[k].kind == Mute)
    && (puns[k].kind == Strike ==> puns[k].user !in tracked && 0 <= t.delay)
  }

  /** Every timer the load creates is well formed, and no two of them belong
      to strikes of the same user. */
  lemma {:induction false} RehydrateNewTimers(s: Store, pending: seq<PunId>, tracked: seq<UserId>, now: int, guild: GuildId)
    requires forall i :: 0 <= i < |pending| ==> pending[i] in s.puns
    requires NoDuplicates(pending)
    ensures var r := Rehydrate(s, pending, tracked, now, guild).store;
      && (forall k :: k in r.handles && k !in s.handles ==> ScheduledWell(s.puns, k, r.handles[k], tracked, guild))
      && (forall k1, k2 ::
            (&& k1 in r.handles && k1 !in s.handles && k2 in r.handles && k2 !in s.handles
             && s.puns[k1].kind == Strike && s.puns[k2].kind == Strike && s.puns[k1].user == s.puns[k2].user)
            ==> k1 == k2)
    decreases |pending|
  {
    if pending != [] {
      var id := pending[0];
      var pun := s.puns[id];
      var r := Rehydrate(s, pending, tracked, now, guild).store;
      assert id !in pending[1..] by {
        forall j | 0 <= j < |pending[1..]| ensures pending[1..][j] != id {
          assert pending[1..][j] == pending[j + 1];
        }
      }
      assert NoDuplicates(pending[1..]) by {
        forall a, b | 0 <= a < b < |pending[1..]| ensures pending[1..][a] != pending[1..][b] {
          assert pending[1..][a] == pending[a + 1] && pending[1..][b] == pending[b + 1];
        }
      }
      if pun.kind == Strike && pun.user !in tracked && pun.user in s.users && s.users[pun.user].strikeCheck.Some? {
        var s' := Schedule(s, StrikeDelay(s.users[pun.user].strikeCheck.value, now), id, guild);
        RehydrateNewTimers(s', pending[1..], tracked + [pun.user], now, guild);
        RehydrateFrame(s', pending[1..], tracked + [pun.user], now, guild);
        assert r.handles[id] == s'.handles[id];
        assert forall k :: k in r.handles && k !in s'.handles ==> s.puns[k].kind == Strike ==> s.puns[k].user != pun.user;
      } else if pun.kind == Mute && pun.expiry.Some? {
        var s' := Schedule(s, Coarse(pun.expiry.value, now), id, guild);
        RehydrateNewTimers(s', pending[1..], tracked, now, guild);
        RehydrateFrame(s', pending[1..], tracked, now, guild);
        assert r.handles[id] == s'.handles[id];
      } else if (pun.kind != Strike && pun.kind != Mute) || (pun.kind == Strike && pun.user in tracked) {
        RehydrateNewTimers(s, pending[1..], tracked, now, guild);
      }
    }
  }

  /** No pending record makes the load raise: every strike of a user not
      yet tracked has a user document with a `strike_check`, and every mute
      has an expiry. */
  predicate LoadsCleanly(puns: map<PunId, Pun>, users: map<UserId, UserDoc>, pending: seq<PunId>, tracked: seq<UserId>)
    requires forall i :: 0 <= i < |pending| ==> pending[i] in puns
  {
    forall i :: 0 <= i < |pending| ==> CleanRecord(puns[pending[i]], users, tracked)
  }

  predicate CleanRecord(pun: Pun, users: map<UserId, UserDoc>, tracked: seq<UserId>) {
    && (pun.kind == Strike && pun.user !in tracked ==> pun.user in users && users[pun.user].strikeCheck.Some?)
    && (pun.kind == Mute ==> pun.expiry.Some?)
  }

  /** The load runs to the end exactly when no pending record makes it
      raise; with no user tracked yet, as at start-up, that is exactly when
      every pending strike's user has a document with a `strike_check` and
      every pending mute has an expiry. */
  lemma {:induction false} RehydrateCompletes(s: Store, pending: seq<PunId>, tracked: seq<UserId>, now: int, guild: GuildId)
    requires forall i :: 0 <= i < |pending| ==> pending[i] in s.puns
    ensures Rehydrate(s, pending, tracked, now, guild).complete <==> LoadsCleanly(s.puns, s.users, pending, tracked)
    ensures tracked == [] ==>
      (Rehydrate(s, pending, tracked, now, guild).complete <==>
        && (forall i :: 0 <= i < |pending| && s.puns[pending[i]].kind == Strike ==>
              s.puns[pending[i]].user in s.users && s.users[s.puns[pending[i]].user].strikeCheck.Some?)
        && (forall i :: 0 <= i < |pending| && s.puns[pending[i]].kind == Mute ==> s.puns[pending[i]].expiry.Some?))
    decreases |pending|
  {
    if pending != [] {
      var id := pending[0];
      var pun := s.puns[id];
      if pun.kind == Strike && pun.user !in tracked && pun.user in s.users && s.users[pun.user].strikeCheck.Some? {
        var s' := Schedule(s, StrikeDelay(s.users[pun.user].strikeCheck.value, now), id, guild);
        RehydrateCompletes(s', pending[1..], tracked + [pun.user], now, guild);
        CleanTail(s.puns, s.users, pending, tracked, tracked + [pun.user]);
      } else if pun.kind == Mute && pun.expiry.Some? {
        var s' := Schedule(s, Coarse(pun.expiry.value, now), id, guild);
        RehydrateCompletes(s', pending[1..], tracked, now, guild);
        CleanTail(s.puns, s.users, pending, tracked, tracked);
      } else if (pun.kind != Strike && pun.kind != Mute) || (pun.kind == Strike && pun.user in tracked) {
        RehydrateCompletes(s, pending[1..], tracked, now, guild);
        CleanTail(s.puns, s.users, pending, tracked, tracked);
      } else {
        assert !CleanRecord(s.puns[pending[0]], s.users, tracked);
      }
    }
  }

  /** After a clean first record, the rest is clean (with the first
      record's user tracked from then on, if it is a strike) exactly when
      the whole is. */
  lemma CleanTail(puns: map<PunId, Pun>, users: map<UserId, UserDoc>, pending: seq<PunId>, tracked: seq<UserId>, tracked': seq<UserId>)
    requires pending != [] && forall i :: 0 <= i < |pending| ==> pending[i] in puns
    requires CleanRecord(puns[pending[0]], users, tracked)
    requires tracked' == tracked || (puns[pending[0]].kind == Strike && tracked' == tracked + [puns[pending[0]].user])
    ensures LoadsCleanly(puns, users, pending[1..], tracked') <==> LoadsCleanly(puns, users, pending, tracked)
  {
    var head := puns[pending[0]];
    if LoadsCleanly(puns, users, pending[1..], tracked') {
      forall i | 0 <= i < |pending| ensures CleanRecord(puns[pending[i]], users, tracked) {
        if i > 0 {
          assert pending[i] == pending[1..][i - 1];
          assert CleanRecord(puns[pending[1..][i - 1]], users, tracked');
        }
      }
    }
    if LoadsCleanly(puns, users, pending, tracked) {
      forall i | 0 <= i < |pending[1..]| ensures CleanRecord(puns[pending[1..][i]], users, tracked') {
        assert pending[1..][i] == pending[i + 1];
        assert CleanRecord(puns[pending[i + 1]], users, tracked);
      }
    }
  }

  /** Starting from an empty registry on the documents of the start-up
      query, a load that runs to the end leaves: a timer for every active
      mute; for every user with an active strike, a timer on exactly one of
      their active strikes; no other timer; and every first delay at most
      12 hours (non-negative for strikes). */
  lemma RecoveryRebuildsRegistry(s: Store, pending: seq<PunId>, now: int, guild: GuildId)
    requires s.handles == map[]
    requires IsPendingQuery(s.puns, pending)
    ensures var r := Rehydrate(s, pending, [], now, guild);
      r.complete ==>
        && (forall k :: k in r.store.handles ==> k in s.puns && IsTimed(s.puns[k]) && ScheduledWell(s.puns, k, r.store.handles[k], [], guild))
        && (forall k :: k in s.puns && s.puns[k].active && s.puns[k].kind == Mute ==> k in r.store.handles)
        && (forall k :: k in s.puns && s.puns[k].active && s.puns[k].kind == Strike ==>
              HasStrikeTimer(s.puns, r.store.handles, pending, s.puns[k].user))
        && (forall k1, k2 ::
              (&& k1 in r.store.handles && k2 in r.store.handles
               && s.puns[k1].kind == Strike && s.puns[k2].kind == Strike && s.puns[k1].user == s.puns[k2].user)
              ==> k1 == k2)
  {
    var r := Rehydrate(s, pending, [], now, guild);
    RehydrateFrame(s, pending, [], now, guild);
    RehydrateSchedulesMutes(s, pending, [], now, guild);
    RehydrateCoversStrikeUsers(s, pending, [], now, guild);
    RehydrateNewTimers(s, pending, [], now, guild);
    if r.complete {
      forall k | k in r.store.handles
        ensures k in s.puns && IsTimed(s.puns[k])
      {
        var i :| 0 <= i < |pending| && pending[i] == k;
      }
      forall k | k in s.puns && s.puns[k].active && s.puns[k].kind == Mute
        ensures k in r.store.handles
      {
        var i :| 0 <= i < |pending| && pending[i] == k;
      }
      forall k | k in s.puns && s.puns[k].active && s.puns[k].kind == Strike
        ensures HasStrikeTimer(s.puns, r.store.handles, pending, s.puns[k].user)
      {
        var i :| 0 <= i < |pending| && pending[i] == k;
      }
    }
  }
}
