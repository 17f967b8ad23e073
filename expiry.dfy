/** The infraction expiry engine of the moderation cog: what one firing of a
    timer does (`Moderation.expire_actions`) and how the registry is rebuilt
    at start-up (`Moderation.cog_load`), stated as functions of the store,
    with the properties the engine is meant to keep. */
module Expiry {
  import opened Options
  import opened Punishments

  /** What one firing sees of the world outside the store: the clock, the
      guild's members, whether the user accepts direct messages, and the id
      the store assigns to a record issued during the firing. */
  datatype Env = Env(now: int, members: set<UserId>, dmOpen: bool, freshId: PunId)

  /** How a firing ended. */
  datatype Outcome =
    | NotFound                         // the document is gone: logged only
    | NotActive                        // already resolved: logged only
    | StrikeCheckUnreadable            // no user document: reading `strike_check` raises
    | Recheck(delay: int)              // deadline ahead: the same id is rescheduled
    | LastStrikeExpired                // the user has no active strike left: handle dropped
    | NextStrikeScheduled(next: PunId) // the record is used up: the user's oldest other strike is scheduled
    | StrikeDecayed                    // one strike of the record gone: record rescheduled
    | NonPositiveCount                 // `active_strike_count` <= 0: logged, handle dropped
    | MemberAbsent                     // the muted member left the guild: logged only
    | Unmuted(record: PunId)           // mute lifted and an `unmute` record issued
    | NotTimed                         // neither a strike nor a mute with an expiry
    | HandleMissing                    // `del self.taskHandles[_id]` raised KeyError

  datatype Step = Step(outcome: Outcome, store: Store)

  /** `doc['type'] == 'mute' and doc['expiry']` (an expiry of 0 is falsy). */
  predicate MuteHasExpiry(p: Pun) {
    p.kind == Mute && p.expiry.Some? && p.expiry.value != 0
  }

  /** The strike branch gets past the `strike_check` test: the user document
      exists and its check is missing or not in the future. */
  predicate StrikeDue(s: Store, id: PunId, now: int) {
    && id in s.puns && s.puns[id].active && s.puns[id].kind == Strike
    && s.puns[id].user in s.users
    && var check := s.users[s.puns[id].user].strikeCheck;
       !(check.Some? && check.value > now)
  }

  /** The due strike is the record's last one. */
  predicate LastStrikeDue(s: Store, id: PunId, now: int) {
    StrikeDue(s, id, now) && s.puns[id].activeStrikeCount - 1 == 0
  }

  /** The records once the used-up strike record is deactivated. */
  function UsedUp(s: Store, id: PunId): map<PunId, Pun>
    requires id in s.puns
  {
    s.puns[id := s.puns[id].(active := false, activeStrikeCount := s.puns[id].activeStrikeCount - 1)]
  }

  /** `oldest` is what the query for the user's remaining active strikes
      returns first, whenever the firing runs that query. */
  predicate ValidOldest(s: Store, id: PunId, now: int, oldest: Option<PunId>) {
    LastStrikeDue(s, id, now) ==> IsOldestActiveStrike(UsedUp(s, id), s.puns[id].user, oldest)
  }

  /** `del self.taskHandles[_id]` */
  function DropHandle(s: Store, id: PunId, outcome: Outcome): Step {
    if id in s.handles then Step(outcome, s.(handles := s.handles - {id}))
    else Step(HandleMissing, s)
  }

  /** The `unmute` record issued when a mute expires. */
  function UnmuteRecord(user: UserId, bot: UserId, now: int, mute: PunId, publicNotify: bool): Pun {
    Pun(user, bot, Unmute, "Mute expired", now, false, None, 0, 0, Some(mute), publicNotify)
  }

  /** One firing of the timer for `id`. */
  function Expire(s: Store, id: PunId, guild: GuildId, env: Env, bot: UserId, oldest: Option<PunId>): Step {
    if id !in s.puns then Step(NotFound, s)
    else if !s.puns[id].active then Step(NotActive, s)
    else if s.puns[id].kind == Strike then ExpireStrike(s, id, guild, env.now, oldest)
    else if MuteHasExpiry(s.puns[id]) then ExpireMute(s, id, guild, env, bot)
    else Step(NotTimed, s)
  }

  function ExpireStrike(s: Store, id: PunId, guild: GuildId, now: int, oldest: Option<PunId>): Step
    requires id in s.puns
  {
    var doc := s.puns[id];
    if doc.user !in s.users then Step(StrikeCheckUnreadable, s)
    else
      var check := s.users[doc.user].strikeCheck;
      if check.Some? && check.value > now then
        var delay := Coarse(check.value, now);
        Step(Recheck(delay), Schedule(s, delay, id, guild))
      else if doc.activeStrikeCount - 1 == 0 then
        var s1 := s.(puns := UsedUp(s, id));
        match oldest
        case None => DropHandle(s1, id, LastStrikeExpired)
        case Some(next) =>
          Step(NextStrikeScheduled(next), PushStrikeCheck(Schedule(s1, TwelveHours, next, guild), doc.user, now))
      else if doc.activeStrikeCount > 0 then
        var s1 := s.(puns := s.puns[id := doc.(activeStrikeCount := doc.activeStrikeCount - 1)]);
        Step(StrikeDecayed, PushStrikeCheck(Schedule(s1, TwelveHours, id, guild), doc.user, now))
      else DropHandle(s, id, NonPositiveCount)
  }

  function ExpireMute(s: Store, id: PunId, guild: GuildId, env: Env, bot: UserId): Step
    requires id in s.puns && MuteHasExpiry(s.puns[id])
  {
    var doc := s.puns[id];
    var expiry := doc.expiry.value;
    if expiry > env.now then
      var delay := Coarse(expiry, env.now);
      Step(Recheck(delay), Schedule(s, delay, id, guild))
    else if doc.user !in env.members then Step(MemberAbsent, s)
    else
      var notified := if env.dmOpen then [DirectMessage(doc.user, Unmute)] else [];
      var unmute := UnmuteRecord(doc.user, bot, env.now, id, !env.dmOpen);
      var s1 := s.(puns := s.puns[id := doc.(active := false)][env.freshId := unmute],
                   effects := s.effects + notified + [ClearTimeout(doc.user)]);
      if id in s1.handles then
        Step(Unmuted(env.freshId), s1.(handles := s1.handles - {id}, effects := s1.effects + [ModLog(Unmute, env.freshId)]))
      else Step(HandleMissing, s1)
  }

  // ---------------------------------------------------------------------
  // Properties of one firing

  /** The documented invariant of a strike record: the active part is never
      negative and never more than was granted, and the record is active
      exactly while some of it is. */
  predicate SoundStrike(p: Pun) {
    p.kind == Strike ==>
      && 0 <= p.activeStrikeCount <= p.strikeCount
      && (p.active <==> p.activeStrikeCount > 0)
  }

  predicate StrikeRecordsSound(puns: map<PunId, Pun>) {
    forall k :: k in puns ==> SoundStrike(puns[k])
  }

  /** `r` differs from `s` only where a firing of `id` may change it. */
  ghost predicate Framed(s: Store, r: Store, id: PunId, freshId: PunId, oldest: Option<PunId>) {
    && r.puns.Keys <= s.puns.Keys + {freshId}
    && (forall k :: k in s.puns ==> k in r.puns && (r.puns[k].active ==> s.puns[k].active))
    && (forall k :: k in s.puns && k != id ==> r.puns[k] == s.puns[k])
    && (forall k :: k != id && oldest != Some(k) ==>
          (k in r.handles <==> k in s.handles) && (k in s.handles ==> r.handles[k] == s.handles[k]))
    && (forall u :: u in s.users && (id !in s.puns || u != s.puns[id].user) ==> u in r.users && r.users[u] == s.users[u])
  }

  lemma StrikeFrame(s: Store, id: PunId, guild: GuildId, now: int, oldest: Option<PunId>, freshId: PunId)
    requires id in s.puns && s.puns[id].active && s.puns[id].kind == Strike
    ensures Framed(s, ExpireStrike(s, id, guild, now, oldest).store, id, freshId, oldest)
  {
    var doc := s.puns[id];
    if doc.user in s.users {
      var check := s.users[doc.user].strikeCheck;
      if !(check.Some? && check.value > now) {
        if doc.activeStrikeCount - 1 == 0 {
          var s1 := s.(puns := UsedUp(s, id));
          assert Framed(s, s1, id, freshId, oldest);
        } else if doc.activeStrikeCount > 0 {
          var s1 := s.(puns := s.puns[id := doc.(activeStrikeCount := doc.activeStrikeCount - 1)]);
          assert Framed(s, s1, id, freshId, oldest);
        }
      }
    }
  }

  lemma MuteFrame(s: Store, id: PunId, guild: GuildId, env: Env, bot: UserId, oldest: Option<PunId>)
    requires id in s.puns && s.puns[id].active && MuteHasExpiry(s.puns[id]) && env.freshId !in s.puns
    ensures Framed(s, ExpireMute(s, id, guild, env, bot).store, id, env.freshId, oldest)
  {
  }

  /** A firing touches no record but its own and the one it issues; records
      only ever go from active to inactive; the registry changes only at the
      fired id and at the strike it hands over to; the user documents change
      only at the record's user. */
  lemma ExpireFrame(s: Store, id: PunId, guild: GuildId, env: Env, bot: UserId, oldest: Option<PunId>)
    requires env.freshId !in s.puns
    ensures Framed(s, Expire(s, id, guild, env, bot, oldest).store, id, env.freshId, oldest)
  {
    if id in s.puns && s.puns[id].active {
      if s.puns[id].kind == Strike {
        StrikeFrame(s, id, guild, env.now, oldest, env.freshId);
      } else if MuteHasExpiry(s.puns[id]) {
        MuteFrame(s, id, guild, env, bot, oldest);
      }
    }
  }

  lemma FiredRecordStaysSound(s: Store, id: PunId, guild: GuildId, env: Env, bot: UserId, oldest: Option<PunId>)
    requires id in s.puns && SoundStrike(s.puns[id])
    ensures var step := Expire(s, id, guild, env, bot, oldest);
      id in step.store.puns && SoundStrike(step.store.puns[id]) && step.outcome != NonPositiveCount
  {
    var doc := s.puns[id];
    if doc.active && doc.kind == Strike && doc.user in s.users {
      var check := s.users[doc.user].strikeCheck;
      if !(check.Some? && check.value > env.now) {
        assert doc.activeStrikeCount > 0;
      }
    }
  }

  /** No firing breaks the strike-record invariant, and under it the
      non-positive-count branch is never taken. */
  lemma ExpireKeepsStrikeRecordsSound(s: Store, id: PunId, guild: GuildId, env: Env, bot: UserId, oldest: Option<PunId>)
    requires StrikeRecordsSound(s.puns) && env.freshId !in s.puns
    ensures var step := Expire(s, id, guild, env, bot, oldest);
      StrikeRecordsSound(step.store.puns) && step.outcome != NonPositiveCount
  {
    var step := Expire(s, id, guild, env, bot, oldest);
    var r := step.store;
    ExpireFrame(s, id, guild, env, bot, oldest);
    if id in s.puns {
      assert SoundStrike(s.puns[id]);
      FiredRecordStaysSound(s, id, guild, env, bot, oldest);
    }
    forall k | k in r.puns ensures SoundStrike(r.puns[k]) {
      if k != id && k in s.puns {
        assert SoundStrike(s.puns[k]);
      } else if k != id {
        assert k == env.freshId;
        MuteFrame(s, id, guild, env, bot, oldest);
      }
    }
  }

  /** A due strike loses exactly one active strike: the record's count drops
      by one, the record stays active only while its count is positive, the
      user's active total drops by one, and `strike_check` moves to 7 days
      from now unless the user has no active strike left, in which case the
      user document is left alone. A record with strikes left is timed again
      in 12 hours; a used-up one hands its timer to the user's oldest other
      strike, or loses it when there is none. */
  lemma StrikeDecayAccounting(s: Store, id: PunId, guild: GuildId, env: Env, bot: UserId, oldest: Option<PunId>)
    requires StrikeDue(s, id, env.now) && 1 <= s.puns[id].activeStrikeCount
    ensures var step := Expire(s, id, guild, env, bot, oldest);
      var user := s.puns[id].user;
      && step.store.puns[id].activeStrikeCount == s.puns[id].activeStrikeCount - 1
      && (step.store.puns[id].active <==> step.store.puns[id].activeStrikeCount > 0)
      && ActiveTotal(step.store.puns, user) == ActiveTotal(s.puns, user) - 1
      && (step.outcome.StrikeDecayed? || step.outcome.NextStrikeScheduled? ==>
            step.store.users[user] == UserDoc(Some(env.now + SevenDays)))
      && (2 <= s.puns[id].activeStrikeCount ==>
            step.outcome == StrikeDecayed && step.store.handles == s.handles[id := Timer(TwelveHours, guild)])
      && (s.puns[id].activeStrikeCount == 1 && oldest.Some? ==>
            step.outcome == NextStrikeScheduled(oldest.value)
            && step.store.handles == s.handles[oldest.value := Timer(TwelveHours, guild)])
      && (s.puns[id].activeStrikeCount == 1 && oldest.None? ==>
            step.outcome == (if id in s.handles then LastStrikeExpired else HandleMissing)
            && step.store.handles == s.handles - {id})
      && (step.outcome == LastStrikeExpired || step.outcome == HandleMissing ==> step.store.users == s.users)
  {
    var step := Expire(s, id, guild, env, bot, oldest);
    ActiveTotalUpdate(s.puns, s.puns[id].user, id, step.store.puns[id]);
    assert step.store.puns == s.puns[id := step.store.puns[id]];
  }

  /** A strike whose user's `strike_check` is still ahead is only
      rescheduled, after at most 12 hours; no record changes. */
  lemma StrikeRecheck(s: Store, id: PunId, guild: GuildId, env: Env, bot: UserId, oldest: Option<PunId>)
    requires id in s.puns && s.puns[id].active && s.puns[id].kind == Strike && s.puns[id].user in s.users
    requires var check := s.users[s.puns[id].user].strikeCheck; check.Some? && check.value > env.now
    ensures var step := Expire(s, id, guild, env, bot, oldest);
      var delay := Coarse(s.users[s.puns[id].user].strikeCheck.value, env.now);
      && step.outcome == Recheck(delay) && 0 < delay <= TwelveHours
      && step.store == Schedule(s, delay, id, guild)
  {
  }

  /** When a record's last strike goes, the firing hands over to the user's
      oldest remaining active strike, scheduled 12 hours out; when there is
      none, the handle of the fired id is dropped and no timer is added. */
  lemma LastStrikeHandover(s: Store, id: PunId, guild: GuildId, env: Env, bot: UserId, oldest: Option<PunId>)
    requires LastStrikeDue(s, id, env.now) && ValidOldest(s, id, env.now, oldest)
    ensures var step := Expire(s, id, guild, env, bot, oldest);
      var user := s.puns[id].user;
      && !step.store.puns[id].active && step.store.puns[id].activeStrikeCount == 0
      && (step.outcome.NextStrikeScheduled? ==>
            && step.outcome.next != id
            && IsOldestActiveStrike(step.store.puns, user, Some(step.outcome.next))
            && step.store.handles[step.outcome.next] == Timer(TwelveHours, guild))
      && (step.outcome == LastStrikeExpired ==>
            && (forall k :: k in step.store.puns ==> !IsActiveStrikeOf(step.store.puns[k], user))
            && step.store.handles == s.handles - {id})
      && (step.outcome.NextStrikeScheduled? || step.outcome == LastStrikeExpired || step.outcome == HandleMissing)
      && (step.outcome == HandleMissing ==> id !in s.handles)
  {
  }

  /** An expired mute of a member still in the guild is resolved: the mute
      becomes inactive, an inactive `unmute` record by the bot points back to
      it, the timeout is cleared and the fired handle is dropped. */
  lemma MuteResolution(s: Store, id: PunId, guild: GuildId, env: Env, bot: UserId, oldest: Option<PunId>)
    requires id in s.puns && s.puns[id].active && MuteHasExpiry(s.puns[id])
    requires s.puns[id].expiry.value <= env.now && s.puns[id].user in env.members
    requires env.freshId !in s.puns
    ensures var step := Expire(s, id, guild, env, bot, oldest);
      var user := s.puns[id].user;
      && step.store.puns[id] == s.puns[id].(active := false)
      && step.store.puns[env.freshId] == UnmuteRecord(user, bot, env.now, id, !env.dmOpen)
      && step.store.puns[env.freshId].context == Some(id) && !step.store.puns[env.freshId].active
      && ClearTimeout(user) in step.store.effects
      && id !in step.store.handles
      && step.outcome == (if id in s.handles then Unmuted(env.freshId) else HandleMissing)
  {
  }

  /** A mute whose expiry is ahead is only rescheduled, after at most 12
      hours; a due mute of a member who left changes nothing at all. */
  lemma MuteNotDue(s: Store, id: PunId, guild: GuildId, env: Env, bot: UserId, oldest: Option<PunId>)
    requires id in s.puns && s.puns[id].active && MuteHasExpiry(s.puns[id])
    ensures var step := Expire(s, id, guild, env, bot, oldest);
      var expiry := s.puns[id].expiry.value;
      && (expiry > env.now ==>
            step.store == Schedule(s, Coarse(expiry, env.now), id, guild) && 0 < Coarse(expiry, env.now) <= TwelveHours)
      && (expiry <= env.now && s.puns[id].user !in env.members ==> step == Step(MemberAbsent, s))
  {
  }

  lemma ExpireTwiceStrike(s: Store, id: PunId, guild: GuildId, env1: Env, env2: Env, bot: UserId, o1: Option<PunId>, o2: Option<PunId>)
    requires env1.now == env2.now
    requires id in s.puns && s.puns[id].active && s.puns[id].kind == Strike
    ensures var r1 := Expire(s, id, guild, env1, bot, o1).store;
      var r2 := Expire(r1, id, guild, env2, bot, o2).store;
      r2.puns == r1.puns && r2.users == r1.users
  {
    var doc := s.puns[id];
    var r1 := Expire(s, id, guild, env1, bot, o1).store;
    if doc.user in s.users {
      var check := s.users[doc.user].strikeCheck;
      if check.Some? && check.value > env1.now {
        assert r1.puns == s.puns && r1.users == s.users;
      } else if doc.activeStrikeCount - 1 == 0 {
        assert !r1.puns[id].active;
      } else if doc.activeStrikeCount > 0 {
        assert r1.puns[id].active && r1.puns[id].kind == Strike;
        assert r1.users[doc.user].strikeCheck == Some(env1.now + SevenDays);
      } else {
        assert r1.puns == s.puns && r1.users == s.users;
      }
    }
  }

  lemma ExpireTwiceMute(s: Store, id: PunId, guild: GuildId, env1: Env, env2: Env, bot: UserId, o1: Option<PunId>, o2: Option<PunId>)
    requires env1.now == env2.now && env1.members == env2.members
    requires env1.freshId !in s.puns
    requires id in s.puns && s.puns[id].active && MuteHasExpiry(s.puns[id])
    ensures var r1 := Expire(s, id, guild, env1, bot, o1).store;
      var r2 := Expire(r1, id, guild, env2, bot, o2).store;
      r2.puns == r1.puns && r2.users == r1.users
  {
    var doc := s.puns[id];
    var r1 := Expire(s, id, guild, env1, bot, o1).store;
    if doc.expiry.value > env1.now {
      assert r1.puns == s.puns;
    } else if doc.user in env1.members {
      assert env1.freshId != id;
      assert !r1.puns[id].active;
    }
  }

  /** Firing the same id twice in a row at the same moment changes the
      documents at most once: the second firing finds the record resolved
      or its deadline pushed out, and leaves records and users alone. */
  lemma ExpireTwice(s: Store, id: PunId, guild: GuildId, env1: Env, env2: Env, bot: UserId, o1: Option<PunId>, o2: Option<PunId>)
    requires env1.now == env2.now && env1.members == env2.members
    requires env1.freshId !in s.puns
    ensures var r1 := Expire(s, id, guild, env1, bot, o1).store;
      var r2 := Expire(r1, id, guild, env2, bot, o2).store;
      r2.puns == r1.puns && r2.users == r1.users
  {
    if id in s.puns && s.puns[id].active {
      if s.puns[id].kind == Strike {
        ExpireTwiceStrike(s, id, guild, env1, env2, bot, o1, o2);
      } else if MuteHasExpiry(s.puns[id]) {
        ExpireTwiceMute(s, id, guild, env1, env2, bot, o1, o2);
      }
    }
  }
}
