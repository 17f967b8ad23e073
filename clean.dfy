/** The `_clean` command of the utility cog: its argument checks, the
    confirmation it asks for on large counts, and the purge it then runs
    over the channel's recent messages. */
module Clean {
  import opened Punishments

  const MaxMessages := 2000
  const ConfirmFrom := 100

  /** A channel message: who wrote it (the only thing the purge looks at). */
  datatype Message = Message(id: int, author: UserId)

  /** What the moderator did with the confirmation prompt. */
  datatype Reply = Approved | Declined | TimedOut

  datatype CleanOutcome =
    | InvalidUsers
    | InvalidCount
    | Canceled
    | ConfirmationTimedOut
    | Cleaned(deleted: nat)

  datatype CleanResult = CleanResult(outcome: CleanOutcome, history: seq<Message>)

  /** `message_filter`: every message when no user is named, otherwise the
      messages of the users named. */
  predicate Selected(m: Message, users: seq<UserId>) {
    users == [] || m.author in users
  }

  /** The messages of `scan` that `purge` keeps, in their order. */
  function Kept(scan: seq<Message>, users: seq<UserId>): (r: seq<Message>)
    ensures |r| <= |scan|
    ensures forall k :: 0 <= k < |r| ==> !Selected(r[k], users) && r[k] in scan
  {
    if scan == [] then []
    else (if Selected(scan[0], users) then [] else [scan[0]]) + Kept(scan[1..], users)
  }

  /** `channel.purge(limit=messages, check=message_filter)` over the history,
      newest first: the first `limit` messages are scanned and the selected
      ones among them deleted; older messages are left alone. */
  function Purge(history: seq<Message>, limit: nat, users: seq<UserId>): seq<Message>
  {
    var n := Scanned(history, limit);
    Kept(history[..n], users) + history[n..]
  }

  /** How many messages the purge looks at. */
  function Scanned(history: seq<Message>, limit: nat): (n: nat)
    ensures n <= |history| && n <= limit && (n == limit || n == |history|)
  {
    if limit < |history| then limit else |history|
  }

  /** `_clean(messages, *users, extra)`. `reply` is what the moderator did
      with the confirmation prompt; it is only looked at when one is shown. */
  function CleanCommand(history: seq<Message>, messages: int, users: seq<UserId>, extra: bool, reply: Reply): (r: CleanResult)
    ensures r.outcome.Cleaned? ==> 0 < messages <= MaxMessages && r.history == Purge(history, messages, users)
    ensures !r.outcome.Cleaned? ==> r.history == history
  {
    if extra then CleanResult(InvalidUsers, history)
    else if messages > MaxMessages || messages <= 0 then CleanResult(InvalidCount, history)
    else if messages >= ConfirmFrom && reply == Declined then CleanResult(Canceled, history)
    else if messages >= ConfirmFrom && reply == TimedOut then CleanResult(ConfirmationTimedOut, history)
    else
      var after := Purge(history, messages, users);
      PurgeKeepsOrder(history, messages, users);
      CleanResult(Cleaned(|history| - |after|), after)
  }

  /** The command runs exactly for a count in 1..2000 and no stray argument,
      and a count of 100 or more needs the moderator's approval. */
  lemma CleanRuns(history: seq<Message>, messages: int, users: seq<UserId>, extra: bool, reply: Reply)
    ensures CleanCommand(history, messages, users, extra, reply).outcome.Cleaned?
        <==> !extra && 0 < messages <= MaxMessages && (messages < ConfirmFrom || reply == Approved)
    ensures CleanCommand(history, messages, users, extra, reply).outcome == InvalidUsers <==> extra
    ensures CleanCommand(history, messages, users, extra, reply).outcome == InvalidCount
        <==> !extra && !(0 < messages <= MaxMessages)
  {
  }

  lemma {:induction false} KeptAll(scan: seq<Message>, users: seq<UserId>)
    ensures users == [] ==> Kept(scan, users) == []
    ensures (forall k :: 0 <= k < |scan| ==> !Selected(scan[k], users)) ==> Kept(scan, users) == scan
  {
    if scan != [] {
      KeptAll(scan[1..], users);
      assert forall k :: 0 <= k < |scan[1..]| ==> scan[1..][k] == scan[k + 1];
    }
  }

  /** Every selected message is removed and every other one is kept. */
  lemma {:induction false} KeptExactly(scan: seq<Message>, users: seq<UserId>, m: Message)
    ensures m in Kept(scan, users) <==> m in scan && !Selected(m, users)
  {
    if scan != [] {
      KeptExactly(scan[1..], users, m);
      assert scan == [scan[0]] + scan[1..];
    }
  }

  /** The purge deletes at most `limit` messages, and only from the scanned
      window; the older messages stay as they were, and the survivors keep
      their order. */
  lemma PurgeKeepsOrder(history: seq<Message>, limit: nat, users: seq<UserId>)
    ensures |Purge(history, limit, users)| <= |history|
    ensures |history| - |Purge(history, limit, users)| <= limit
    ensures var n := Scanned(history, limit);
      Purge(history, limit, users)[|Purge(history, limit, users)| - (|history| - n)..] == history[n..]
    ensures Subsequence(Purge(history, limit, users), history)
  {
    var n := Scanned(history, limit);
    KeptSubsequence(history[..n], users);
    SubsequenceAppend(Kept(history[..n], users), history[..n], history[n..]);
    assert history[..n] + history[n..] == history;
  }

  /** `a` is `b` with some elements left out, the rest in their order. */
  predicate Subsequence(a: seq<Message>, b: seq<Message>)
    decreases |b|
  {
    if a == [] then true
    else if b == [] then false
    else (a[0] == b[0] && Subsequence(a[1..], b[1..])) || Subsequence(a, b[1..])
  }

  /** The survivors of a scan keep their order. */
  lemma {:induction false} KeptSubsequence(scan: seq<Message>, users: seq<UserId>)
    ensures Subsequence(Kept(scan, users), scan)
    decreases |scan|
  {
    if scan != [] {
      KeptSubsequence(scan[1..], users);
      if Selected(scan[0], users) {
        assert Kept(scan, users) == Kept(scan[1..], users);
      } else {
        assert Kept(scan, users) == [scan[0]] + Kept(scan[1..], users);
        assert Kept(scan, users)[1..] == Kept(scan[1..], users);
      }
    }
  }

  /** A subsequence of `b`, followed by all of `c`, is a subsequence of `b + c`. */
  lemma {:induction false} SubsequenceAppend(a: seq<Message>, b: seq<Message>, c: seq<Message>)
    requires Subsequence(a, b)
    ensures Subsequence(a + c, b + c)
    decreases |b|
  {
    if b == [] {
      assert a == [];
      assert a + c == c && b + c == c;
      SubsequenceRefl(c);
    } else {
      assert (b + c)[1..] == b[1..] + c;
      if a != [] && a[0] == b[0] && Subsequence(a[1..], b[1..]) {
        SubsequenceAppend(a[1..], b[1..], c);
        assert (a + c)[1..] == a[1..] + c;
      } else {
        SubsequenceAppend(a, b[1..], c);
      }
    }
  }

  lemma {:induction false} SubsequenceRefl(c: seq<Message>)
    ensures Subsequence(c, c)
    decreases |c|
  {
    if c != [] {
      SubsequenceRefl(c[1..]);
    }
  }

  /** A message survives the purge exactly when it is older than the
      scanned window or not written by a named user. */
  lemma PurgeSelects(history: seq<Message>, limit: nat, users: seq<UserId>, m: Message)
    ensures m in Purge(history, limit, users)
        <==> m in history && (!Selected(m, users) || m in history[Scanned(history, limit)..])
  {
    var n := Scanned(history, limit);
    KeptExactly(history[..n], users, m);
    assert history == history[..n] + history[n..];
  }

  /** A clean that runs removes exactly the named users' messages among the
      `messages` newest (every message when no user is named). */
  lemma CleanSelects(history: seq<Message>, messages: int, users: seq<UserId>, reply: Reply, m: Message)
    requires 0 < messages <= MaxMessages && (messages < ConfirmFrom || reply == Approved)
    ensures var r := CleanCommand(history, messages, users, false, reply);
      m in r.history <==> m in history && (!Selected(m, users) || m in history[Scanned(history, messages)..])
    ensures messages >= |history| && users == [] ==> CleanCommand(history, messages, users, false, reply).history == []
  {
    PurgeSelects(history, messages, users, m);
    KeptAll(history[..Scanned(history, messages)], users);
  }
}
