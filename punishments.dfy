/** The data the moderation cog works on: punishment records (the `puns`
    collection), user documents (the `users` collection, of which only
    `strike_check` matters here), the registry of pending expiry timers
    (`Moderation.taskHandles`), and the effects sent to the chat platform.
    Also the store queries the expiry engine and the strike commands run. */
module Punishments {
  import opened Options

  type PunId = string
  type UserId = int
  type GuildId = int

  const TwelveHours := 60 * 60 * 12
  const SevenDays := 60 * 60 * 24 * 7

  datatype PunType =
    | Strike | Destrike | Mute | Unmute | Kick | Ban | Unban | Blacklist | Unblacklist | Note
    | Other(name: string)

  /** A punishment document. Strike records carry the strikes they granted
      (`strike_count`) and the part of them still in force
      (`active_strike_count`); a mute may carry an absolute `expiry`. */
  datatype Pun = Pun(
    user: UserId,
    moderator: UserId,
    kind: PunType,
    reason: string,
    timestamp: int,
    active: bool,
    expiry: Option<int>,
    strikeCount: int,
    activeStrikeCount: int,
    context: Option<PunId>,
    publicNotify: bool)

  /** A user document; `strike_check` may be missing on a hand-made document. */
  datatype UserDoc = UserDoc(strikeCheck: Option<int>)

  /** A pending `call_later` handle: its delay in seconds and the guild it is for. */
  datatype Timer = Timer(delay: int, guild: GuildId)

  /** What the cog does on the chat platform, kept as a log. */
  datatype Effect =
    | DirectMessage(to: UserId, about: PunType)
    | ClearTimeout(member: UserId)
    | ModLog(kind: PunType, record: PunId)

  /** Everything the expiry engine and the strike commands read and write.
      `cancelled` lists, in order, the ids whose pending handle was cancelled. */
  datatype Store = Store(
    puns: map<PunId, Pun>,
    users: map<UserId, UserDoc>,
    handles: map<PunId, Timer>,
    cancelled: seq<PunId>,
    effects: seq<Effect>)

  /** The delay before the next look at a deadline: the time left, but never
      more than 12 hours. */
  function Coarse(deadline: int, now: int): (d: int)
    ensures d <= TwelveHours
    ensures d == TwelveHours || d == deadline - now
    ensures deadline - now <= TwelveHours ==> d == deadline - now
    ensures deadline > now ==> d > 0
  {
    if deadline - now > TwelveHours then TwelveHours else deadline - now
  }

  /** `schedule_task`: cancel the pending handle of `id`, if any, and install a
      new one; no other handle and no document changes. */
  function Schedule(s: Store, delay: int, id: PunId, guild: GuildId): (r: Store)
    ensures r.handles.Keys == s.handles.Keys + {id}
    ensures r.handles[id] == Timer(delay, guild)
    ensures forall k :: k in s.handles && k != id ==> r.handles[k] == s.handles[k]
    ensures r.cancelled == if id in s.handles then s.cancelled + [id] else s.cancelled
    ensures r.puns == s.puns && r.users == s.users && r.effects == s.effects
  {
    s.(handles := s.handles[id := Timer(delay, guild)],
       cancelled := if id in s.handles then s.cancelled + [id] else s.cancelled)
  }

  /** Scheduling an id twice leaves one handle for it, with the second delay,
      and the first handle cancelled. */
  lemma ScheduleTwice(s: Store, d1: int, d2: int, id: PunId, g: GuildId)
    ensures var r := Schedule(Schedule(s, d1, id, g), d2, id, g);
      && r.handles == s.handles[id := Timer(d2, g)]
      && |r.cancelled| >= 1 && r.cancelled[|r.cancelled| - 1] == id
  {
  }

  /** `user['strike_check'] = now + 7 days` */
  function PushStrikeCheck(s: Store, user: UserId, now: int): (r: Store)
    ensures r.users == s.users[user := UserDoc(Some(now + SevenDays))]
    ensures r.puns == s.puns && r.handles == s.handles && r.cancelled == s.cancelled && r.effects == s.effects
  {
    s.(users := s.users[user := UserDoc(Some(now + SevenDays))])
  }

  // ---------------------------------------------------------------------
  // Active strikes of a user

  /** The filter `{'user': user, 'type': 'strike', 'active': True}`. */
  predicate IsActiveStrikeOf(p: Pun, user: UserId) {
    p.kind == Strike && p.active && p.user == user
  }

  /** What a record adds to the user's active strike total. */
  function Contribution(p: Pun, user: UserId): int {
    if IsActiveStrikeOf(p, user) then p.activeStrikeCount else 0
  }

  /** Sum of the contributions of the records with ids in `ks`. */
  ghost function SumOver(puns: map<PunId, Pun>, user: UserId, ks: set<PunId>): int
    requires ks <= puns.Keys
    decreases ks
  {
    if ks == {} then 0
    else
      var k :| k in ks;
      Contribution(puns[k], user) + SumOver(puns, user, ks - {k})
  }

  /** The user's active strikes: `active_strike_count` summed over the user's
      active strike records. */
  ghost function ActiveTotal(puns: map<PunId, Pun>, user: UserId): int {
    SumOver(puns, user, puns.Keys)
  }

  function Elems(order: seq<PunId>): set<PunId> {
    set k | k in order
  }

  predicate NoDuplicates(order: seq<PunId>) {
    forall i, j :: 0 <= i < j < |order| ==> order[i] != order[j]
  }

  /** Sum of the contributions along a list of ids. */
  function SeqSum(puns: map<PunId, Pun>, user: UserId, order: seq<PunId>): int
    requires Elems(order) <= puns.Keys
  {
    if order == [] then 0
    else
      assert order[0] in Elems(order);
      assert Elems(order[1..]) <= Elems(order);
      Contribution(puns[order[0]], user) + SeqSum(puns, user, order[1..])
  }

  /** The sum over a set may take out any member first. */
  lemma SumOverRemove(puns: map<PunId, Pun>, user: UserId, ks: set<PunId>, k: PunId)
    requires ks <= puns.Keys && k in ks
    ensures SumOver(puns, user, ks) == Contribution(puns[k], user) + SumOver(puns, user, ks - {k})
    decreases ks
  {
    var k' :| k' in ks && SumOver(puns, user, ks) == Contribution(puns[k'], user) + SumOver(puns, user, ks - {k'});
    if k' != k {
      SumOverRemove(puns, user, ks - {k'}, k);
      SumOverRemove(puns, user, ks - {k}, k');
      assert ks - {k'} - {k} == ks - {k} - {k'};
    }
  }

  lemma {:induction false} SumOverZero(puns: map<PunId, Pun>, user: UserId, ks: set<PunId>)
    requires ks <= puns.Keys
    requires forall k :: k in ks ==> Contribution(puns[k], user) == 0
    ensures SumOver(puns, user, ks) == 0
    decreases ks
  {
    if ks != {} {
      var k :| k in ks;
      SumOverRemove(puns, user, ks, k);
      SumOverZero(puns, user, ks - {k});
    }
  }

  /** Two stores whose records contribute alike over `ks` have the same sum. */
  lemma {:induction false} SumOverAgree(p1: map<PunId, Pun>, p2: map<PunId, Pun>, user: UserId, ks: set<PunId>)
    requires ks <= p1.Keys && ks <= p2.Keys
    requires forall k :: k in ks ==> Contribution(p1[k], user) == Contribution(p2[k], user)
    ensures SumOver(p1, user, ks) == SumOver(p2, user, ks)
    decreases ks
  {
    if ks != {} {
      var k :| k in ks;
      SumOverRemove(p1, user, ks, k);
      SumOverRemove(p2, user, ks, k);
      SumOverAgree(p1, p2, user, ks - {k});
    }
  }

  /** The sum over a set splits into the sum along a duplicate-free list of
      some of its members and the sum over the rest. */
  lemma {:induction false} SumOverSeq(puns: map<PunId, Pun>, user: UserId, order: seq<PunId>, ks: set<PunId>)
    requires ks <= puns.Keys && Elems(order) <= ks && NoDuplicates(order)
    ensures SumOver(puns, user, ks) == SeqSum(puns, user, order) + SumOver(puns, user, ks - Elems(order))
    decreases |order|
  {
    if order != [] {
      var k := order[0];
      assert k in Elems(order);
      SumOverRemove(puns, user, ks, k);
      assert order == [k] + order[1..];
      assert k !in order[1..] by {
        forall i | 0 <= i < |order[1..]| ensures order[1..][i] != k {
          assert order[1..][i] == order[i + 1];
        }
      }
      assert Elems(order) == {k} + Elems(order[1..]);
      assert NoDuplicates(order[1..]) by {
        forall i, j | 0 <= i < j < |order[1..]| ensures order[1..][i] != order[1..][j] {
          assert order[1..][i] == order[i + 1] && order[1..][j] == order[j + 1];
        }
      }
      SumOverSeq(puns, user, order[1..], ks - {k});
      assert ks - {k} - Elems(order[1..]) == ks - Elems(order);
    } else {
      assert ks - Elems(order) == ks;
    }
  }

  /** Adding a record under a new id adds its contribution to the total. */
  lemma ActiveTotalInsert(puns: map<PunId, Pun>, user: UserId, id: PunId, p: Pun)
    requires id !in puns
    ensures ActiveTotal(puns[id := p], user) == ActiveTotal(puns, user) + Contribution(p, user)
  {
    var puns' := puns[id := p];
    assert puns'.Keys - {id} == puns.Keys;
    SumOverRemove(puns', user, puns'.Keys, id);
    SumOverAgree(puns', puns, user, puns.Keys);
  }

  /** Rewriting one existing record changes the total by the difference of
      its contributions. */
  lemma ActiveTotalUpdate(puns: map<PunId, Pun>, user: UserId, id: PunId, p: Pun)
    requires id in puns
    ensures ActiveTotal(puns[id := p], user)
         == ActiveTotal(puns, user) - Contribution(puns[id], user) + Contribution(p, user)
  {
    var puns' := puns[id := p];
    assert puns'.Keys == puns.Keys;
    SumOverRemove(puns', user, puns.Keys, id);
    SumOverRemove(puns, user, puns.Keys, id);
    SumOverAgree(puns', puns, user, puns.Keys - {id});
  }

  // ---------------------------------------------------------------------
  // Store queries

  /** `find(filter).sort('timestamp', 1)` over the user's active strikes:
      every such record exactly once, oldest first. Ties are in any order. */
  predicate IsStrikeQuery(puns: map<PunId, Pun>, user: UserId, order: seq<PunId>) {
    && (forall i :: 0 <= i < |order| ==> order[i] in puns && IsActiveStrikeOf(puns[order[i]], user))
    && (forall k :: k in puns && IsActiveStrikeOf(puns[k], user) ==> k in order)
    && NoDuplicates(order)
    && (forall i, j :: 0 <= i < j < |order| ==> puns[order[i]].timestamp <= puns[order[j]].timestamp)
  }

  /** The first document of that query, or none when it is empty. */
  predicate IsOldestActiveStrike(puns: map<PunId, Pun>, user: UserId, oldest: Option<PunId>) {
    match oldest
    case None => forall k :: k in puns ==> !IsActiveStrikeOf(puns[k], user)
    case Some(k) =>
      && k in puns && IsActiveStrikeOf(puns[k], user)
      && forall k' :: k' in puns && IsActiveStrikeOf(puns[k'], user) ==> puns[k].timestamp <= puns[k'].timestamp
  }

  /** The total of the user's active strikes is the sum along the query. */
  lemma ActiveTotalIsQuerySum(puns: map<PunId, Pun>, user: UserId, order: seq<PunId>)
    requires IsStrikeQuery(puns, user, order)
    ensures Elems(order) <= puns.Keys
    ensures ActiveTotal(puns, user) == SeqSum(puns, user, order)
  {
    SumOverSeq(puns, user, order, puns.Keys);
    SumOverZero(puns, user, puns.Keys - Elems(order));
  }

  /** One of the records in `ks` with the smallest timestamp. */
  method OldestAmong(puns: map<PunId, Pun>, ks: set<PunId>) returns (oldest: PunId)
    requires ks != {} && ks <= puns.Keys
    ensures oldest in ks
    ensures forall k :: k in ks ==> puns[oldest].timestamp <= puns[k].timestamp
  {
    oldest :| oldest in ks;
    var rest := ks - {oldest};
    while rest != {}
      invariant rest <= ks && oldest in ks
      invariant forall k :: k in ks - rest ==> puns[oldest].timestamp <= puns[k].timestamp
      decreases rest
    {
      var k :| k in rest;
      if puns[k].timestamp < puns[oldest].timestamp {
        oldest := k;
      }
      rest := rest - {k};
    }
  }

  /** `find({'user': user, 'type': 'strike', 'active': True}).sort('timestamp', 1)[0]` */
  method OldestActiveStrike(puns: map<PunId, Pun>, user: UserId) returns (oldest: Option<PunId>)
    ensures IsOldestActiveStrike(puns, user, oldest)
  {
    var candidates := set k | k in puns && IsActiveStrikeOf(puns[k], user);
    assert forall k :: k in puns && IsActiveStrikeOf(puns[k], user) ==> k in candidates;
    if candidates == {} {
      oldest := None;
    } else {
      var k := OldestAmong(puns, candidates);
      oldest := Some(k);
    }
  }

  /** `find({'user': user, 'type': 'strike', 'active': True}).sort('timestamp', 1)` */
  method ActiveStrikesSorted(puns: map<PunId, Pun>, user: UserId) returns (order: seq<PunId>)
    ensures IsStrikeQuery(puns, user, order)
  {
    var all := set k | k in puns && IsActiveStrikeOf(puns[k], user);
    var remaining := all;
    order := [];
    while remaining != {}
      invariant remaining <= all
      invariant forall k :: k in all ==> (k in remaining <==> k !in order)
      invariant forall i :: 0 <= i < |order| ==> order[i] in all
      invariant NoDuplicates(order)
      invariant forall i, j :: 0 <= i < j < |order| ==> puns[order[i]].timestamp <= puns[order[j]].timestamp
      invariant forall i, k :: 0 <= i < |order| && k in remaining ==> puns[order[i]].timestamp <= puns[k].timestamp
      decreases remaining
    {
      var next := OldestAmong(puns, remaining);
      order := order + [next];
      remaining := remaining - {next};
    }
  }

  /** The loop `for pun in find(...): activeStrikes += pun['active_strike_count']`. */
  method ActiveStrikeTotal(puns: map<PunId, Pun>, user: UserId) returns (total: int)
    ensures total == ActiveTotal(puns, user)
  {
    total := 0;
    var rest := puns.Keys;
    while rest != {}
      invariant rest <= puns.Keys
      invariant total + SumOver(puns, user, rest) == ActiveTotal(puns, user)
      decreases rest
    {
      var k :| k in rest;
      SumOverRemove(puns, user, rest, k);
      if IsActiveStrikeOf(puns[k], user) {
        total := total + puns[k].activeStrikeCount;
      }
      rest := rest - {k};
    }
  }
}
