/** The strike commands of the moderation cog: issuing strikes under the
    cap of 16 (`Moderation._strike`) and setting a user's active strikes to
    a given count (`Moderation._strike_set`), whose reduction spreads the
    removed strikes over the user's strike records, oldest first. */
module Strikes {
  import opened Options
  import opened Punishments
  import StrikeRange
  import opened Expiry

  /** The longest accepted strike reason. */
  const MaxReason := 990

  /** What a strike command sees outside the store: the clock, who invoked
      it, whether the user accepts direct messages, the id the store gives
      the record the command issues, and the guild. */
  datatype Invocation = Invocation(now: int, moderator: UserId, dmOpen: bool, freshId: PunId, guild: GuildId)

  /** How a strike command ended. */
  datatype StrikeResult =
    | ZeroCount                          // `count == 0`: refused
    | ReasonTooLong(over: int)           // reason longer than 990 characters: refused
    | NeverJoined                        // no user document: refused
    | ExceedsMax(over: int)              // the new total would pass 16: refused
    | Struck(total: int, record: PunId)  // strikes issued; the user's new total
    | AlreadyAt(total: int)              // `strike set` to the current total: refused
    | Destruck(removed: int, record: PunId) // strikes removed and a `destrike` record issued
    | DiffNotZero(diff: int)             // the reduction ran out of records: ValueError

  datatype Issued = Issued(result: StrikeResult, store: Store)

  /** The `strike` record `issue_pun` writes: active, with all its strikes in force. */
  function StrikeRecord(user: UserId, moderator: UserId, reason: string, now: int, count: int, publicNotify: bool): Pun {
    Pun(user, moderator, Strike, reason, now, true, None, count, count, None, publicNotify)
  }

  /** The `destrike` record: inactive, `strike_count` the strikes removed. */
  function DestrikeRecord(user: UserId, moderator: UserId, reason: string, now: int, removed: int, publicNotify: bool): Pun {
    Pun(user, moderator, Destrike, reason, now, false, None, removed, 0, None, publicNotify)
  }

  function Notified(dmOpen: bool, user: UserId, kind: PunType): seq<Effect> {
    if dmOpen then [DirectMessage(user, kind)] else []
  }

  // ---------------------------------------------------------------------
  // `strike`

  /** `_strike(user, count, reason)`. */
  ghost function IssueStrike(s: Store, user: UserId, count: int, reason: string, c: Invocation): Issued {
    if count == 0 then Issued(ZeroCount, s)
    else if |reason| > MaxReason then Issued(ReasonTooLong(|reason| - MaxReason), s)
    else if user !in s.users then Issued(NeverJoined, s)
    else
      var total := ActiveTotal(s.puns, user) + count;
      if total > StrikeRange.MaxStrikes then Issued(ExceedsMax(total - StrikeRange.MaxStrikes), s)
      else
        var s1 := s.(puns := s.puns[c.freshId := StrikeRecord(user, c.moderator, reason, c.now, count, !c.dmOpen)],
                     effects := s.effects + Notified(c.dmOpen, user, Strike) + [ModLog(Strike, c.freshId)]);
        Issued(Struck(total, c.freshId), Schedule(PushStrikeCheck(s1, user, c.now), TwelveHours, c.freshId, c.guild))
  }

  /** The cap: a strike command that issues strikes leaves the user with
      exactly the reported total, the old total plus `count`, at most 16;
      the new record is timed for 12 hours and `strike_check` is a week
      ahead. A refusal changes nothing. */
  lemma StrikeCap(s: Store, user: UserId, count: int, reason: string, c: Invocation)
    requires c.freshId !in s.puns
    ensures var r := IssueStrike(s, user, count, reason, c);
      && (r.result.Struck? ==>
            && r.result.total == ActiveTotal(r.store.puns, user) == ActiveTotal(s.puns, user) + count
            && r.result.total <= StrikeRange.MaxStrikes
            && r.store.puns == s.puns[c.freshId := StrikeRecord(user, c.moderator, reason, c.now, count, !c.dmOpen)]
            && r.store.handles == s.handles[c.freshId := Timer(TwelveHours, c.guild)]
            && r.store.users == s.users[user := UserDoc(Some(c.now + SevenDays))])
      && (!r.result.Struck? ==> r.store == s)
  {
    var r := IssueStrike(s, user, count, reason, c);
    if r.result.Struck? {
      var p := StrikeRecord(user, c.moderator, reason, c.now, count, !c.dmOpen);
      ActiveTotalInsert(s.puns, user, c.freshId, p);
    }
  }

  /** Which refusal `_strike` gives, in the order it checks. */
  lemma StrikeRefusals(s: Store, user: UserId, count: int, reason: string, c: Invocation)
    ensures var r := IssueStrike(s, user, count, reason, c).result;
      && (r == ZeroCount <==> count == 0)
      && (r.ReasonTooLong? <==> count != 0 && |reason| > MaxReason)
      && (r == NeverJoined <==> count != 0 && |reason| <= MaxReason && user !in s.users)
      && (r.ExceedsMax? <==>
            count != 0 && |reason| <= MaxReason && user in s.users
            && ActiveTotal(s.puns, user) + count > StrikeRange.MaxStrikes)
      && (r.ExceedsMax? ==> r.over == ActiveTotal(s.puns, user) + count - StrikeRange.MaxStrikes > 0)
  {
  }

  // ---------------------------------------------------------------------
  // `strike set`: the reduction loop

  /** How the reduction loop ended. */
  datatype ReduceEnd =
    | Balanced     // some record absorbed the rest of `diff`
    | NoUserDoc    // that record was found but the user document is gone
    | Leftover(diff: int) // the records ran out with `diff` not 0

  datatype Reduced = Reduced(end: ReduceEnd, store: Store)

  /** The loop of `_strike_set` over the user's active strikes, oldest
      first, with `diff` the strikes still to remove. A record with enough
      strikes absorbs the rest and is timed again; a smaller one is zeroed
      and deactivated. */
  function Reduce(s: Store, order: seq<PunId>, diff: int, user: UserId, now: int, guild: GuildId): Reduced
    requires forall i :: 0 <= i < |order| ==> order[i] in s.puns
    decreases |order|
  {
    if order == [] then
      if diff != 0 then Reduced(Leftover(diff), s) else Reduced(Balanced, s)
    else
      var id := order[0];
      var p := s.puns[id];
      var asc := p.activeStrikeCount;
      if asc - diff >= 0 then
        if user !in s.users then Reduced(NoUserDoc, s)
        else
          var s1 := s.(puns := s.puns[id := p.(activeStrikeCount := asc - diff, active := asc - diff > 0)]);
          Reduced(Balanced, Schedule(PushStrikeCheck(s1, user, now), TwelveHours, id, guild))
      else
        Reduce(s.(puns := s.puns[id := p.(activeStrikeCount := 0, active := false)]), order[1..], diff - asc, user, now, guild)
  }

  /** Every id of `order` names an active strike of `user`. */
  predicate AllActiveStrikes(puns: map<PunId, Pun>, user: UserId, order: seq<PunId>) {
    forall i :: 0 <= i < |order| ==> order[i] in puns && IsActiveStrikeOf(puns[order[i]], user)
  }

  lemma TailFacts(puns: map<PunId, Pun>, user: UserId, order: seq<PunId>, p: Pun)
    requires order != [] && AllActiveStrikes(puns, user, order) && NoDuplicates(order)
    ensures order[0] !in order[1..]
    ensures NoDuplicates(order[1..])
    ensures AllActiveStrikes(puns[order[0] := p], user, order[1..])
  {
    forall j | 0 <= j < |order[1..]| ensures order[1..][j] != order[0] {
      assert order[1..][j] == order[j + 1];
    }
    forall a, b | 0 <= a < b < |order[1..]| ensures order[1..][a] != order[1..][b] {
      assert order[1..][a] == order[a + 1] && order[1..][b] == order[b + 1];
    }
  }

  /** The reduction touches only records of `order`, only the user's
      document, and times at most one record of `order`. */
  lemma {:induction false} ReduceFrame(s: Store, order: seq<PunId>, diff: int, user: UserId, now: int, guild: GuildId)
    requires forall i :: 0 <= i < |order| ==> order[i] in s.puns
    ensures var r := Reduce(s, order, diff, user, now, guild).store;
      && r.puns.Keys == s.puns.Keys
      && (forall k :: k in s.puns && k !in order ==> r.puns[k] == s.puns[k])
      && (forall u :: u != user ==> (u in r.users <==> u in s.users) && (u in s.users ==> r.users[u] == s.users[u]))
      && (user in r.users <==> user in s.users)
      && r.effects == s.effects
      && (forall k :: k !in order ==> (k in r.handles <==> k in s.handles) && (k in s.handles ==> r.handles[k] == s.handles[k]))
      && s.handles.Keys <= r.handles.Keys
      && (r.handles == s.handles || exists k :: k in order && r.handles == s.handles[k := Timer(TwelveHours, guild)])
      && (!Reduce(s, order, diff, user, now, guild).end.Balanced? ==> r.handles == s.handles)
    decreases |order|
  {
    if order != [] {
      var id := order[0];
      var p := s.puns[id];
      if p.activeStrikeCount - diff < 0 {
        var s' := s.(puns := s.puns[id := p.(activeStrikeCount := 0, active := false)]);
        ReduceFrame(s', order[1..], diff - p.activeStrikeCount, user, now, guild);
        var r := Reduce(s', order[1..], diff - p.activeStrikeCount, user, now, guild).store;
        if r.handles != s.handles {
          var k :| k in order[1..] && r.handles == s.handles[k := Timer(TwelveHours, guild)];
          assert k in order;
        }
      } else if user in s.users {
        assert id in order;
      }
    }
  }

  /** When the record that absorbs the rest of `diff` is emptied by it, the
      loop still times that record and no other: user 1 has record "A"
      (2 active strikes, holding the user's timer) and the newer "B" (3);
      setting the user to 3 strikes takes both of A's, A is deactivated yet
      timed again, and its firing then returns at the `active` test without
      handing over, so B is left without a timer. */
  lemma ReduceTimesEmptiedRecord()
    ensures var a := Pun(1, 2, Strike, "", 0, true, None, 2, 2, None, false);
      var b := Pun(1, 2, Strike, "", 1, true, None, 3, 3, None, false);
      var s := Store(map["A" := a, "B" := b], map[1 := UserDoc(None)], map["A" := Timer(0, 7)], [], []);
      var r := Reduce(s, ["A", "B"], 2, 1, 100, 7);
      var fired := Expire(r.store, "A", 7, Env(100 + TwelveHours, {1}, true, "C"), 2, None);
      && r.end == Balanced
      && r.store.puns["A"].activeStrikeCount == 0 && !r.store.puns["A"].active
      && r.store.handles == map["A" := Timer(TwelveHours, 7)]
      && r.store.puns["B"].active && "B" !in r.store.handles
      && fired.outcome == NotActive && fired.store == r.store
  {
  }

  /** Accounting: each step removes from the user's active total exactly
      what it takes off a record, so a balanced reduction removes `diff`
      strikes, and one that runs out removes `diff` minus what is left. */
  lemma {:induction false} ReduceTotal(s: Store, order: seq<PunId>, diff: int, user: UserId, now: int, guild: GuildId)
    requires AllActiveStrikes(s.puns, user, order) && NoDuplicates(order)
    ensures var r := Reduce(s, order, diff, user, now, guild);
      && (r.end == Balanced ==> ActiveTotal(r.store.puns, user) == ActiveTotal(s.puns, user) - diff)
      && (r.end.Leftover? ==> ActiveTotal(r.store.puns, user) == ActiveTotal(s.puns, user) - (diff - r.end.diff))
    decreases |order|
  {
    if order != [] {
      var id := order[0];
      var p := s.puns[id];
      var asc := p.activeStrikeCount;
      if asc - diff >= 0 {
        if user in s.users {
          ActiveTotalUpdate(s.puns, user, id, p.(activeStrikeCount := asc - diff, active := asc - diff > 0));
        }
      } else {
        var p' := p.(activeStrikeCount := 0, active := false);
        var s' := s.(puns := s.puns[id := p']);
        TailFacts(s.puns, user, order, p');
        ActiveTotalUpdate(s.puns, user, id, p');
        ReduceTotal(s', order[1..], diff - asc, user, now, guild);
      }
    }
  }

  /** The `diff` accumulator reaches 0: when there is something to remove
      and no more than the records hold, the loop never raises. */
  lemma {:induction false} ReduceNeverLeftover(s: Store, order: seq<PunId>, diff: int, user: UserId, now: int, guild: GuildId)
    requires AllActiveStrikes(s.puns, user, order) && NoDuplicates(order)
    requires 0 < diff <= SeqSum(s.puns, user, order)
    ensures !Reduce(s, order, diff, user, now, guild).end.Leftover?
    decreases |order|
  {
    assert order != [];
    var id := order[0];
    var p := s.puns[id];
    var asc := p.activeStrikeCount;
    if asc - diff < 0 {
      var p' := p.(activeStrikeCount := 0, active := false);
      var s' := s.(puns := s.puns[id := p']);
      TailFacts(s.puns, user, order, p');
      SeqSumAgree(s.puns, s'.puns, user, order[1..]);
      ReduceNeverLeftover(s', order[1..], diff - asc, user, now, guild);
    }
  }

  /** A sum along ids is the same in two stores that agree on those ids. */
  lemma {:induction false} SeqSumAgree(p1: map<PunId, Pun>, p2: map<PunId, Pun>, user: UserId, order: seq<PunId>)
    requires forall i :: 0 <= i < |order| ==> order[i] in p1 && order[i] in p2 && p1[order[i]] == p2[order[i]]
    ensures Elems(order) <= p1.Keys && Elems(order) <= p2.Keys
    ensures SeqSum(p1, user, order) == SeqSum(p2, user, order)
    decreases |order|
  {
    if order != [] {
      assert forall i :: 0 <= i < |order[1..]| ==> order[1..][i] == order[i + 1];
      SeqSumAgree(p1, p2, user, order[1..]);
    }
  }

  /** A record the loop zeroes. */
  function Zeroed(p: Pun): Pun {
    p.(activeStrikeCount := 0, active := false)
  }

  /** `after` is `before` with its active strikes lowered: nothing else
      changed, the count is non-negative and no larger than before, and the
      record is active exactly while it is positive. */
  predicate Lowered(before: Pun, after: Pun) {
    && after == before.(activeStrikeCount := after.activeStrikeCount, active := after.active)
    && 0 <= after.activeStrikeCount <= before.activeStrikeCount
    && (after.active <==> after.activeStrikeCount > 0)
  }

  predicate InBoth(before: map<PunId, Pun>, after: map<PunId, Pun>, order: seq<PunId>) {
    forall i :: 0 <= i < |order| ==> order[i] in before && order[i] in after
  }

  /** When a record of `order` changed, every record before it was zeroed. */
  predicate OldestFirst(before: map<PunId, Pun>, after: map<PunId, Pun>, order: seq<PunId>)
    requires InBoth(before, after, order)
  {
    forall i, j :: 0 <= i < j < |order| && after[order[j]] != before[order[j]] ==>
      after[order[i]] == Zeroed(before[order[i]])
  }

  /** Every changed record of `order` was lowered. */
  predicate TouchedLowered(before: map<PunId, Pun>, after: map<PunId, Pun>, order: seq<PunId>)
    requires InBoth(before, after, order)
  {
    forall i :: 0 <= i < |order| && after[order[i]] != before[order[i]] ==> Lowered(before[order[i]], after[order[i]])
  }

  lemma OldestFirstCons(before: map<PunId, Pun>, mid: map<PunId, Pun>, after: map<PunId, Pun>, order: seq<PunId>)
    requires order != [] && order[0] in before && 0 <= before[order[0]].activeStrikeCount
    requires order[0] !in order[1..]
    requires mid == before[order[0] := Zeroed(before[order[0]])]
    requires InBoth(mid, after, order[1..]) && order[0] in after && after[order[0]] == mid[order[0]]
    requires OldestFirst(mid, after, order[1..]) && TouchedLowered(mid, after, order[1..])
    ensures InBoth(before, after, order)
    ensures OldestFirst(before, after, order) && TouchedLowered(before, after, order)
  {
    var tail := order[1..];
    assert forall i :: 0 < i < |order| ==> order[i] == tail[i - 1] && order[i] != order[0];
  }

  lemma OldestFirstOne(before: map<PunId, Pun>, order: seq<PunId>, q: Pun)
    requires order != [] && order[0] in before && Lowered(before[order[0]], q)
    requires order[0] !in order[1..] && InBoth(before, before, order)
    ensures InBoth(before, before[order[0] := q], order)
    ensures OldestFirst(before, before[order[0] := q], order) && TouchedLowered(before, before[order[0] := q], order)
  {
    assert forall i :: 0 < i < |order| ==> order[i] != order[0] by {
      forall i | 0 < i < |order| ensures order[i] != order[0] {
        assert order[i] == order[1..][i - 1];
      }
    }
  }

  /** Oldest first: when a record of the query was changed, every record
      before it was zeroed and deactivated. Every changed record keeps a
      non-negative count no larger than it had, and is active exactly while
      that count is positive. */
  lemma {:induction false} ReduceOldestFirst(s: Store, order: seq<PunId>, diff: int, user: UserId, now: int, guild: GuildId)
    requires AllActiveStrikes(s.puns, user, order) && NoDuplicates(order)
    requires forall i :: 0 <= i < |order| ==> SoundStrike(s.puns[order[i]])
    requires 0 <= diff
    ensures var r := Reduce(s, order, diff, user, now, guild).store;
      && InBoth(s.puns, r.puns, order)
      && OldestFirst(s.puns, r.puns, order)
      && TouchedLowered(s.puns, r.puns, order)
    decreases |order|
  {
    ReduceFrame(s, order, diff, user, now, guild);
    if order != [] {
      var id := order[0];
      var p := s.puns[id];
      var asc := p.activeStrikeCount;
      var r := Reduce(s, order, diff, user, now, guild).store;
      TailFacts(s.puns, user, order, Zeroed(p));
      if asc - diff < 0 {
        var s' := s.(puns := s.puns[id := Zeroed(p)]);
        var tail := order[1..];
        assert forall i :: 0 <= i < |tail| ==> s'.puns[tail[i]] == s.puns[tail[i]] && SoundStrike(s.puns[tail[i]]) by {
          forall i | 0 <= i < |tail| ensures s'.puns[tail[i]] == s.puns[tail[i]] && SoundStrike(s.puns[tail[i]]) {
            assert tail[i] == order[i + 1];
          }
        }
        ReduceOldestFirst(s', tail, diff - asc, user, now, guild);
        ReduceFrame(s', tail, diff - asc, user, now, guild);
        OldestFirstCons(s.puns, s'.puns, r.puns, order);
      } else if user in s.users {
        OldestFirstOne(s.puns, order, p.(activeStrikeCount := asc - diff, active := asc - diff > 0));
      } else {
        assert r.puns == s.puns;
      }
    }
  }

  // ---------------------------------------------------------------------
  // `strike set`

  /** `_strike_set(user, count, reason)`, where `order` is what the store's
      sorted query for the user's active strikes returns. */
  ghost function SetStrikes(s: Store, user: UserId, count: int, reason: string, c: Invocation, order: seq<PunId>): Issued
    requires IsStrikeQuery(s.puns, user, order)
  {
    var active := ActiveTotal(s.puns, user);
    if active == count then Issued(AlreadyAt(active), s)
    else if count > active then IssueStrike(s, user, count - active, reason, c)
    else
      var removed := active - count;
      var red := Reduce(s, order, removed, user, c.now, c.guild);
      match red.end
      case NoUserDoc => Issued(NeverJoined, red.store)
      case Leftover(d) => Issued(DiffNotZero(d), red.store)
      case Balanced =>
        var s1 := red.store;
        Issued(Destruck(removed, c.freshId),
          s1.(puns := s1.puns[c.freshId := DestrikeRecord(user, c.moderator, reason, c.now, removed, !c.dmOpen)],
              effects := s1.effects + Notified(c.dmOpen, user, Destrike) + [ModLog(Destrike, c.freshId)]))
  }

  /** Setting the count C (as `StrikeRange` admits, 0..16) on a user with A
      active strikes: C = A is refused; C > A issues exactly C - A strikes,
      never over the cap; C < A removes exactly A - C strikes, never ends in
      the ValueError, and leaves the user with C active strikes. */
  lemma SetStrikesReachesCount(s: Store, user: UserId, count: int, reason: string, c: Invocation, order: seq<PunId>)
    requires IsStrikeQuery(s.puns, user, order)
    requires 0 <= count <= StrikeRange.MaxStrikes
    requires c.freshId !in s.puns
    ensures var r := SetStrikes(s, user, count, reason, c, order);
      && !r.result.DiffNotZero? && !r.result.ExceedsMax?
      && (r.result.AlreadyAt? <==> ActiveTotal(s.puns, user) == count)
      && (r.result.Struck? ==> r.result.total == count == ActiveTotal(r.store.puns, user))
      && (r.result.Destruck? ==>
            && r.result.removed == ActiveTotal(s.puns, user) - count > 0
            && ActiveTotal(r.store.puns, user) == count)
  {
    var active := ActiveTotal(s.puns, user);
    if count > active {
      StrikeCap(s, user, count - active, reason, c);
    } else if count < active {
      var removed := active - count;
      ActiveTotalIsQuerySum(s.puns, user, order);
      ReduceNeverLeftover(s, order, removed, user, c.now, c.guild);
      ReduceTotal(s, order, removed, user, c.now, c.guild);
      ReduceFrame(s, order, removed, user, c.now, c.guild);
      var red := Reduce(s, order, removed, user, c.now, c.guild);
      if red.end == Balanced {
        ActiveTotalInsert(red.store.puns, user, c.freshId, DestrikeRecord(user, c.moderator, reason, c.now, removed, !c.dmOpen));
      }
    }
  }

  /** No strike command breaks the strike-record invariant. */
  lemma SetStrikesKeepsSound(s: Store, user: UserId, count: int, reason: string, c: Invocation, order: seq<PunId>)
    requires IsStrikeQuery(s.puns, user, order)
    requires 0 <= count
    requires StrikeRecordsSound(s.puns) && c.freshId !in s.puns
    ensures StrikeRecordsSound(SetStrikes(s, user, count, reason, c, order).store.puns)
  {
    var active := ActiveTotal(s.puns, user);
    if count < active {
      var removed := active - count;
      ReduceOldestFirst(s, order, removed, user, c.now, c.guild);
      ReduceFrame(s, order, removed, user, c.now, c.guild);
      var r := Reduce(s, order, removed, user, c.now, c.guild).store;
      forall k | k in r.puns ensures SoundStrike(r.puns[k]) {
        if k in order {
          var i :| 0 <= i < |order| && order[i] == k;
        }
      }
    }
  }

  lemma IssueStrikeKeepsSound(s: Store, user: UserId, count: int, reason: string, c: Invocation)
    requires 0 <= count
    requires StrikeRecordsSound(s.puns)
    ensures StrikeRecordsSound(IssueStrike(s, user, count, reason, c).store.puns)
  {
  }
}
