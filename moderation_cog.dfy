/** The moderation cog as an object: its in-memory registry of expiry
    timers (`taskHandles`) and, standing in for the database, the
    punishment records and user documents it reads and updates, plus the
    log of what it sent to the chat platform. Each method does what the
    cog's method of the same role does, step by step, and is proved to end
    in the state the matching function of the specification computes. */
module Moderation {
  import opened Options
  import opened Punishments
  import opened Expiry
  import opened Recovery
  import opened Strikes
  import StrikeRange

  class Cog {
    var puns: map<PunId, Pun>
    var users: map<UserId, UserDoc>
    var taskHandles: map<PunId, Timer>
    var cancelled: seq<PunId>
    var effects: seq<Effect>
    /** The bot's own user id, the moderator of automatic records. */
    const bot: UserId

    function State(): Store
      reads this
    {
      Store(puns, users, taskHandles, cancelled, effects)
    }

    /** A freshly loaded cog has no timers and has sent nothing. */
    constructor (bot: UserId, puns: map<PunId, Pun>, users: map<UserId, UserDoc>)
      ensures this.bot == bot
      ensures State() == Store(puns, users, map[], [], [])
    {
      this.bot := bot;
      this.puns := puns;
      this.users := users;
      this.taskHandles := map[];
      this.cancelled := [];
      this.effects := [];
    }

    /** `schedule_task`: one handle per id, the previous one cancelled. */
    method ScheduleTask(tryTime: int, id: PunId, guild: GuildId)
      modifies this
      ensures State() == Schedule(old(State()), tryTime, id, guild)
    {
      if id in taskHandles {
        cancelled := cancelled + [id];
      }
      taskHandles := taskHandles[id := Timer(tryTime, guild)];
    }

    /** `del self.taskHandles[id]`; false where Python raises KeyError. */
    method DeleteHandle(id: PunId) returns (deleted: bool)
      modifies this
      ensures deleted <==> id in old(taskHandles)
      ensures State() == old(State()).(handles := old(taskHandles) - {id})
    {
      deleted := id in taskHandles;
      if deleted {
        taskHandles := taskHandles - {id};
      }
    }

    /** `expire_actions(id, guild)`. `oldest` is the record the store's
        sorted query returned, when the firing ran that query. */
    method ExpireActions(id: PunId, guild: GuildId, env: Env) returns (outcome: Outcome, ghost oldest: Option<PunId>)
      requires env.freshId !in puns
      modifies this
      ensures ValidOldest(old(State()), id, env.now, oldest)
      ensures Step(outcome, State()) == Expire(old(State()), id, guild, env, bot, oldest)
    {
      oldest := None;
      if id !in puns {
        return NotFound, oldest;
      }
      var doc := puns[id];
      if !doc.active {
        return NotActive, oldest;
      }
      if doc.kind == Strike {
        if doc.user !in users {
          return StrikeCheckUnreadable, oldest;
        }
        var check := users[doc.user].strikeCheck;
        if check.Some? && check.value > env.now {
          var retryTime := Coarse(check.value, env.now);
          ScheduleTask(retryTime, id, guild);
          return Recheck(retryTime), oldest;
        }
        if doc.activeStrikeCount - 1 == 0 {
          puns := puns[id := doc.(active := false, activeStrikeCount := doc.activeStrikeCount - 1)];
          var strikes := OldestActiveStrike(puns, doc.user);
          oldest := strikes;
          if strikes.None? {
            var deleted := DeleteHandle(id);
            return if deleted then LastStrikeExpired else HandleMissing, oldest;
          }
          ScheduleTask(TwelveHours, strikes.value, guild);
          outcome := NextStrikeScheduled(strikes.value);
        } else if doc.activeStrikeCount > 0 {
          puns := puns[id := doc.(activeStrikeCount := doc.activeStrikeCount - 1)];
          ScheduleTask(TwelveHours, id, guild);
          outcome := StrikeDecayed;
        } else {
          var deleted := DeleteHandle(id);
          return if deleted then NonPositiveCount else HandleMissing, oldest;
        }
        users := users[doc.user := UserDoc(Some(env.now + SevenDays))];
      } else if MuteHasExpiry(doc) {
        var expiry := doc.expiry.value;
        if expiry > env.now {
          var retryTime := Coarse(expiry, env.now);
          ScheduleTask(retryTime, id, guild);
          return Recheck(retryTime), oldest;
        }
        if doc.user !in env.members {
          return MemberAbsent, oldest;
        }
        if env.dmOpen {
          effects := effects + [DirectMessage(doc.user, Unmute)];
        }
        puns := puns[id := doc.(active := false)];
        puns := puns[env.freshId := UnmuteRecord(doc.user, bot, env.now, id, !env.dmOpen)];
        effects := effects + [ClearTimeout(doc.user)];
        var deleted := DeleteHandle(id);
        if !deleted {
          return HandleMissing, oldest;
        }
        effects := effects + [ModLog(Unmute, env.freshId)];
        outcome := Unmuted(env.freshId);
      } else {
        outcome := NotTimed;
      }
    }

    /** The expiry part of `cog_load`, over the documents of its query in
        the order the store returns them; false where the load raises. */
    method CogLoad(pending: seq<PunId>, now: int, guild: GuildId) returns (complete: bool)
      requires IsPendingQuery(puns, pending)
      modifies this
      ensures Load(complete, State()) == Rehydrate(old(State()), pending, [], now, guild)
    {
      var trackedStrikes: seq<UserId> := [];
      var i := 0;
      while i < |pending|
        invariant 0 <= i <= |pending|
        invariant puns == old(puns)
        invariant Rehydrate(State(), pending[i..], trackedStrikes, now, guild)
               == Rehydrate(old(State()), pending, [], now, guild)
      {
        assert pending[i..][0] == pending[i] && pending[i..][1..] == pending[i + 1..];
        var pun := puns[pending[i]];
        if pun.kind == Strike {
          if pun.user !in trackedStrikes {
            if pun.user !in users || users[pun.user].strikeCheck.None? {
              return false;
            }
            trackedStrikes := trackedStrikes + [pun.user];
            var check := users[pun.user].strikeCheck.value;
            if check > now {
              ScheduleTask(Coarse(check, now), pending[i], guild);
            } else {
              ScheduleTask(0, pending[i], guild);
            }
          }
        } else if pun.kind == Mute {
          if pun.expiry.None? {
            return false;
          }
          ScheduleTask(Coarse(pun.expiry.value, now), pending[i], guild);
        }
        i := i + 1;
      }
      return true;
    }

    /** `_strike(user, count, reason)`, `count` as `StrikeRange` gives it. */
    method StrikeCommand(user: UserId, count: int, reason: string, c: Invocation) returns (result: StrikeResult)
      modifies this
      ensures Issued(result, State()) == IssueStrike(old(State()), user, count, reason, c)
    {
      if count == 0 {
        return ZeroCount;
      }
      if |reason| > MaxReason {
        return ReasonTooLong(|reason| - MaxReason);
      }
      if user !in users {
        return NeverJoined;
      }
      var activeStrikes := ActiveStrikeTotal(puns, user);
      activeStrikes := activeStrikes + count;
      if activeStrikes > StrikeRange.MaxStrikes {
        return ExceedsMax(activeStrikes - StrikeRange.MaxStrikes);
      }
      if c.dmOpen {
        effects := effects + [DirectMessage(user, Strike)];
      }
      puns := puns[c.freshId := StrikeRecord(user, c.moderator, reason, c.now, count, !c.dmOpen)];
      effects := effects + [ModLog(Strike, c.freshId)];
      users := users[user := UserDoc(Some(c.now + SevenDays))];
      ScheduleTask(TwelveHours, c.freshId, c.guild);
      result := Struck(activeStrikes, c.freshId);
    }

    /** The reduction loop of `_strike_set`: `removed` strikes to take off
        the records of `order`, oldest first. */
    method ReduceStrikes(order: seq<PunId>, removed: int, user: UserId, now: int, guild: GuildId) returns (end: ReduceEnd)
      requires forall i :: 0 <= i < |order| ==> order[i] in puns
      modifies this
      ensures Reduced(end, State()) == Reduce(old(State()), order, removed, user, now, guild)
    {
      ghost var goal := Reduce(State(), order, removed, user, now, guild);
      var diff := removed;
      var i := 0;
      while i < |order|
        invariant 0 <= i <= |order|
        invariant puns.Keys == old(puns).Keys
        invariant Reduce(State(), order[i..], diff, user, now, guild) == goal
      {
        assert order[i..][0] == order[i] && order[i..][1..] == order[i + 1..];
        var id := order[i];
        var pun := puns[id];
        if pun.activeStrikeCount - diff >= 0 {
          if user !in users {
            return NoUserDoc;
          }
          puns := puns[id := pun.(activeStrikeCount := pun.activeStrikeCount - diff, active := pun.activeStrikeCount - diff > 0)];
          users := users[user := UserDoc(Some(now + SevenDays))];
          ScheduleTask(TwelveHours, id, guild);
          return Balanced;
        }
        puns := puns[id := pun.(activeStrikeCount := 0, active := false)];
        diff := diff - pun.activeStrikeCount;
        i := i + 1;
      }
      end := if diff != 0 then Leftover(diff) else Balanced;
    }

    /** `_strike_set(user, count, reason)`. `order` is what the store's
        sorted query for the user's active strikes returned. */
    method StrikeSetCommand(user: UserId, count: int, reason: string, c: Invocation)
      returns (result: StrikeResult, ghost order: seq<PunId>)
      modifies this
      ensures IsStrikeQuery(old(puns), user, order)
      ensures Issued(result, State()) == SetStrikes(old(State()), user, count, reason, c, order)
    {
      var activeStrikes := ActiveStrikeTotal(puns, user);
      var sorted := ActiveStrikesSorted(puns, user);
      order := sorted;
      if activeStrikes == count {
        return AlreadyAt(activeStrikes), order;
      }
      if count > activeStrikes {
        result := StrikeCommand(user, count - activeStrikes, reason, c);
        return result, order;
      }
      var removedStrikes := activeStrikes - count;
      var end := ReduceStrikes(sorted, removedStrikes, user, c.now, c.guild);
      if end == NoUserDoc {
        return NeverJoined, order;
      } else if end.Leftover? {
        return DiffNotZero(end.diff), order;
      }
      if c.dmOpen {
        effects := effects + [DirectMessage(user, Destrike)];
      }
      puns := puns[c.freshId := DestrikeRecord(user, c.moderator, reason, c.now, removedStrikes, !c.dmOpen)];
      effects := effects + [ModLog(Destrike, c.freshId)];
      result := Destruck(removedStrikes, c.freshId);
    }
  }
}
