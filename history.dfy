/** The record summaries of the utility cog: the strike tallies of
    `_history` and `_info`, the splitting of an over-long `_history` field
    value into marked pieces, and the note list of `_info`, which stops at
    a character budget. */
module History {
  import opened Options
  import opened Punishments
  import opened Expiry

  // ---------------------------------------------------------------------
  // Strike tallies

  /** `active_strike_count` summed over the strike records of a list. */
  function ActiveSum(docs: seq<Pun>): int {
    if docs == [] then 0
    else (if docs[0].kind == Strike then docs[0].activeStrikeCount else 0) + ActiveSum(docs[1..])
  }

  /** Strikes ever given minus strikes ever removed. */
  function NetSum(docs: seq<Pun>): int {
    if docs == [] then 0
    else
      (if docs[0].kind == Strike then docs[0].strikeCount
       else if docs[0].kind == Destrike then -docs[0].strikeCount
       else 0) + NetSum(docs[1..])
  }

  lemma {:induction false} SumsConcat(a: seq<Pun>, b: seq<Pun>)
    ensures ActiveSum(a + b) == ActiveSum(a) + ActiveSum(b)
    ensures NetSum(a + b) == NetSum(a) + NetSum(b)
  {
    if a != [] {
      assert (a + b)[1..] == a[1..] + b;
      SumsConcat(a[1..], b);
    } else {
      assert a + b == b;
    }
  }

  /** Taking one record out of the list takes its part out of both sums. */
  lemma RemoveAt(b: seq<Pun>, j: nat)
    requires j < |b|
    ensures ActiveSum(b) == ActiveSum([b[j]]) + ActiveSum(b[..j] + b[j + 1..])
    ensures NetSum(b) == NetSum([b[j]]) + NetSum(b[..j] + b[j + 1..])
  {
    assert b == b[..j] + ([b[j]] + b[j + 1..]);
    SumsConcat(b[..j], [b[j]] + b[j + 1..]);
    SumsConcat([b[j]], b[j + 1..]);
    SumsConcat(b[..j], b[j + 1..]);
  }

  lemma MultisetRemoveAt(a: seq<Pun>, b: seq<Pun>, j: nat)
    requires a != [] && j < |b| && b[j] == a[0]
    requires multiset(a) == multiset(b)
    ensures multiset(a[1..]) == multiset(b[..j] + b[j + 1..])
  {
    var x := a[0];
    calc {
      multiset(b);
      { assert b == b[..j] + [x] + b[j + 1..]; }
      multiset(b[..j] + [x] + b[j + 1..]);
      multiset(b[..j] + b[j + 1..]) + multiset{x};
    }
    calc {
      multiset(a);
      { assert a == [x] + a[1..]; }
      multiset(a[1..]) + multiset{x};
    }
    assert multiset(a[1..]) == multiset(a) - multiset{x};
    assert multiset(b[..j] + b[j + 1..]) == multiset(b) - multiset{x};
  }

  /** The tallies do not depend on the order the store returns the records
      in: any permutation of the list gives the same two numbers. */
  lemma {:induction false} SumsPermutation(a: seq<Pun>, b: seq<Pun>)
    requires multiset(a) == multiset(b)
    ensures ActiveSum(a) == ActiveSum(b) && NetSum(a) == NetSum(b)
    decreases |a|
  {
    if a != [] {
      assert a[0] in multiset(b);
      var j :| 0 <= j < |b| && b[j] == a[0];
      MultisetRemoveAt(a, b, j);
      SumsPermutation(a[1..], b[..j] + b[j + 1..]);
      RemoveAt(b, j);
      assert a == [a[0]] + a[1..];
      SumsConcat([a[0]], a[1..]);
    } else {
      assert |b| == |multiset(b)|;
    }
  }

  /** The tally loop of `_history` over the user's records. */
  method HistoryTally(docs: seq<Pun>) returns (activeStrikes: int, totalStrikes: int)
    ensures activeStrikes == ActiveSum(docs) && totalStrikes == NetSum(docs)
  {
    activeStrikes, totalStrikes := 0, 0;
    for i := 0 to |docs|
      invariant activeStrikes == ActiveSum(docs[..i]) && totalStrikes == NetSum(docs[..i])
    {
      var pun := docs[i];
      if pun.kind == Strike {
        activeStrikes := activeStrikes + pun.activeStrikeCount;
        totalStrikes := totalStrikes + pun.strikeCount;
      } else if pun.kind == Destrike {
        totalStrikes := totalStrikes - pun.strikeCount;
      }
      SnocTally(docs, i);
    }
    assert docs[..|docs|] == docs;
  }

  predicate ActiveMute(p: Pun) {
    p.kind == Mute && p.active
  }

  /** The `expiry` of the last active mute of the list, `None` when there is
      none; `_info` lists the records newest first, so this is the oldest
      active mute. */
  function LastActiveMute(docs: seq<Pun>): Option<int>
    decreases |docs|
  {
    if docs == [] then None
    else if ActiveMute(docs[|docs| - 1]) then docs[|docs| - 1].expiry
    else LastActiveMute(docs[..|docs| - 1])
  }

  /** No active mute: nothing to report; otherwise the expiry of the last one. */
  lemma {:induction false} LastActiveMuteIsLast(docs: seq<Pun>)
    ensures (forall i :: 0 <= i < |docs| ==> !ActiveMute(docs[i])) ==> LastActiveMute(docs) == None
    ensures forall i ::
      (0 <= i < |docs| && ActiveMute(docs[i]) && (forall j :: i < j < |docs| ==> !ActiveMute(docs[j])))
        ==> LastActiveMute(docs) == docs[i].expiry
    decreases |docs|
  {
    if docs != [] {
      var init := docs[..|docs| - 1];
      LastActiveMuteIsLast(init);
      assert forall i :: 0 <= i < |init| ==> init[i] == docs[i];
    }
  }

  /** One more record at the end of the list. */
  lemma SnocTally(docs: seq<Pun>, i: nat)
    requires i < |docs|
    ensures docs[..i + 1] == docs[..i] + [docs[i]]
    ensures ActiveSum(docs[..i + 1]) == ActiveSum(docs[..i]) + (if docs[i].kind == Strike then docs[i].activeStrikeCount else 0)
    ensures NetSum(docs[..i + 1]) == NetSum(docs[..i])
      + (if docs[i].kind == Strike then docs[i].strikeCount else if docs[i].kind == Destrike then -docs[i].strikeCount else 0)
    ensures LastActiveMute(docs[..i + 1]) == if ActiveMute(docs[i]) then docs[i].expiry else LastActiveMute(docs[..i])
  {
    assert docs[..i + 1] == docs[..i] + [docs[i]];
    assert docs[..i + 1][..i] == docs[..i];
    SumsConcat(docs[..i], [docs[i]]);
    assert [docs[i]][1..] == [];
  }

  /** How many entries `_info` lists in full. */
  const InfoEntries := 5

  /** The tally loop of `_info`: the same two sums, the expiry of the
      oldest-listed active mute, and how many entries it shows. */
  method InfoTally(docs: seq<Pun>) returns (activeStrikes: int, totalStrikes: int, shown: nat, activeMute: Option<int>)
    ensures activeStrikes == ActiveSum(docs) && totalStrikes == NetSum(docs)
    ensures shown == if |docs| < InfoEntries then |docs| else InfoEntries
    ensures activeMute == LastActiveMute(docs)
  {
    activeStrikes, totalStrikes, shown, activeMute := 0, 0, 0, None;
    for i := 0 to |docs|
      invariant activeStrikes == ActiveSum(docs[..i]) && totalStrikes == NetSum(docs[..i])
      invariant shown == if i < InfoEntries then i else InfoEntries
      invariant activeMute == LastActiveMute(docs[..i])
    {
      var pun := docs[i];
      if pun.kind == Strike {
        totalStrikes := totalStrikes + pun.strikeCount;
        activeStrikes := activeStrikes + pun.activeStrikeCount;
      } else if pun.kind == Destrike {
        totalStrikes := totalStrikes - pun.strikeCount;
      } else if pun.kind == Mute {
        if pun.active {
          activeMute := pun.expiry;
        }
      }
      SnocTally(docs, i);
      if shown < InfoEntries {
        shown := shown + 1;
      }
    }
    assert docs[..|docs|] == docs;
  }

  /** `_history` lists exactly the user's records, each once. */
  predicate IsUserRecords(puns: map<PunId, Pun>, user: UserId, ids: seq<PunId>) {
    && (forall i :: 0 <= i < |ids| ==> ids[i] in puns && puns[ids[i]].user == user)
    && (forall k :: k in puns && puns[k].user == user ==> k in ids)
    && NoDuplicates(ids)
  }

  function Docs(puns: map<PunId, Pun>, ids: seq<PunId>): (r: seq<Pun>)
    requires forall i :: 0 <= i < |ids| ==> ids[i] in puns
    ensures |r| == |ids| && forall i :: 0 <= i < |ids| ==> r[i] == puns[ids[i]]
  {
    seq(|ids|, i requires 0 <= i < |ids| => puns[ids[i]])
  }

  lemma {:induction false} ActiveSumIsSeqSum(puns: map<PunId, Pun>, user: UserId, ids: seq<PunId>)
    requires StrikeRecordsSound(puns)
    requires forall i :: 0 <= i < |ids| ==> ids[i] in puns && puns[ids[i]].user == user
    ensures Elems(ids) <= puns.Keys
    ensures ActiveSum(Docs(puns, ids)) == SeqSum(puns, user, ids)
    decreases |ids|
  {
    if ids != [] {
      assert Docs(puns, ids)[1..] == Docs(puns, ids[1..]);
      assert SoundStrike(puns[ids[0]]);
      ActiveSumIsSeqSum(puns, user, ids[1..]);
      assert Elems(ids) == {ids[0]} + Elems(ids[1..]);
    }
  }

  /** The active strikes `_history` and `_info` report are the total the
      strike commands and the expiry engine work with, as long as every
      strike record is consistent (which every operation keeps). */
  lemma HistoryAgreesWithStore(puns: map<PunId, Pun>, user: UserId, ids: seq<PunId>)
    requires StrikeRecordsSound(puns)
    requires IsUserRecords(puns, user, ids)
    ensures ActiveSum(Docs(puns, ids)) == ActiveTotal(puns, user)
  {
    ActiveSumIsSeqSum(puns, user, ids);
    SumOverSeq(puns, user, ids, puns.Keys);
    forall k | k in puns.Keys - Elems(ids) ensures Contribution(puns[k], user) == 0 {
    }
    SumOverZero(puns, user, puns.Keys - Elems(ids));
  }

  // ---------------------------------------------------------------------
  // Splitting a long field value

  const FieldLimit := 1024
  const PieceSize := 1018
  const Marker := "..."

  function Min(a: int, b: int): int { if a < b then a else b }

  /** `value[o : o + 1018]`. */
  function Segment(value: string, o: nat): string
    requires o <= |value|
  {
    value[o..Min(o + PieceSize, |value|)]
  }

  /** The `i`-th of `n` pieces, marked as the loop of `_history` marks it. */
  function Piece(value: string, i: nat, n: nat): string
    requires PieceSize * i <= |value|
  {
    var segment := Segment(value, PieceSize * i);
    if i == 0 then segment + Marker
    else if i == n - 1 then Marker + segment
    else Marker + segment + Marker
  }

  /** A piece with its markers taken off: the leading one after the first
      piece, the trailing one before the last. */
  function Unmarked(pieces: seq<string>, i: nat): string
    requires i < |pieces|
  {
    var p := pieces[i];
    var lead := if i > 0 then |Marker| else 0;
    var trail := if i < |pieces| - 1 then |Marker| else 0;
    if lead + trail <= |p| then p[lead..|p| - trail] else p
  }

  /** The pieces from `i` on, unmarked and joined back together. */
  function UnmarkFrom(pieces: seq<string>, i: nat): string
    requires i <= |pieces|
    decreases |pieces| - i
  {
    if i == |pieces| then [] else Unmarked(pieces, i) + UnmarkFrom(pieces, i + 1)
  }

  /** `pieces` is a faithful split of `value`: every piece fits in a field,
      every piece but the first starts with the marker and every piece but
      the last ends with it, every unmarked piece but the last is 1018
      characters long, and the unmarked pieces put together give back the
      value. */
  predicate SplitOf(value: string, pieces: seq<string>) {
    && (forall k :: 0 <= k < |pieces| ==> |pieces[k]| <= FieldLimit)
    && (forall k :: 0 < k < |pieces| ==> Marker <= pieces[k])
    && (forall k :: 0 <= k < |pieces| - 1 ==> |pieces[k]| >= |Marker| && pieces[k][|pieces[k]| - |Marker|..] == Marker)
    && (forall k :: 0 <= k < |pieces| - 1 ==> |Unmarked(pieces, k)| == PieceSize)
    && UnmarkFrom(pieces, 0) == value
  }

  /** Taking the markers off the `i`-th piece gives back its segment. */
  lemma UnmarkedPiece(value: string, pieces: seq<string>, i: nat)
    requires 2 <= |pieces| && i < |pieces|
    requires PieceSize * i <= |value| && pieces[i] == Piece(value, i, |pieces|)
    ensures Unmarked(pieces, i) == Segment(value, PieceSize * i)
  {
    var seg := Segment(value, PieceSize * i);
    var p := pieces[i];
    if i == 0 {
      assert p == seg + Marker;
      assert p[0..|p| - 3] == seg;
    } else if i == |pieces| - 1 {
      assert p == Marker + seg;
      assert p[3..|p|] == seg;
    } else {
      assert p == Marker + seg + Marker;
      assert p[3..|p| - 3] == seg;
    }
  }

  /** One more piece in front: its segment followed by the rest. */
  lemma UnmarkStep(value: string, pieces: seq<string>, i: nat)
    requires i < |pieces| && PieceSize * i <= |value|
    requires i + 1 < |pieces| ==> PieceSize * (i + 1) <= |value|
    requires i + 1 == |pieces| ==> |value| <= PieceSize * (i + 1)
    requires Unmarked(pieces, i) == Segment(value, PieceSize * i)
    requires UnmarkFrom(pieces, i + 1) == value[Min(PieceSize * (i + 1), |value|)..]
    ensures UnmarkFrom(pieces, i) == value[PieceSize * i..]
  {
    var o := PieceSize * i;
    assert PieceSize * (i + 1) == o + PieceSize;
    if i + 1 < |pieces| {
      assert value[o..] == value[o..o + PieceSize] + value[o + PieceSize..];
    } else {
      assert Min(o + PieceSize, |value|) == |value|;
    }
  }

  lemma {:induction false} UnmarkPieces(value: string, pieces: seq<string>, i: nat)
    requires |pieces| >= 2 && PieceSize * (|pieces| - 1) < |value| <= PieceSize * |pieces|
    requires forall k :: 0 <= k < |pieces| ==> PieceSize * k <= |value| && pieces[k] == Piece(value, k, |pieces|)
    requires i <= |pieces|
    ensures UnmarkFrom(pieces, i) == value[Min(PieceSize * i, |value|)..]
    decreases |pieces| - i
  {
    if i < |pieces| {
      UnmarkPieces(value, pieces, i + 1);
      UnmarkedPiece(value, pieces, i);
      UnmarkStep(value, pieces, i);
    } else {
      assert Min(PieceSize * i, |value|) == |value|;
    }
  }

  /** `list(range(0, length, 1018))`. */
  method Offsets(length: nat) returns (offsets: seq<nat>)
    ensures |offsets| == (length + PieceSize - 1) / PieceSize
    ensures length > 0 ==> PieceSize * (|offsets| - 1) < length <= PieceSize * |offsets|
    ensures forall k :: 0 <= k < |offsets| ==> offsets[k] == PieceSize * k
  {
    offsets := [];
    var o := 0;
    while o < length
      invariant o == PieceSize * |offsets|
      invariant |offsets| > 0 ==> PieceSize * (|offsets| - 1) < length
      invariant forall k :: 0 <= k < |offsets| ==> offsets[k] == PieceSize * k
      decreases length - o
    {
      offsets := offsets + [o];
      o := o + PieceSize;
    }
    CeilDiv(length, |offsets|);
  }

  lemma CeilDiv(length: nat, n: nat)
    requires n > 0 ==> PieceSize * (n - 1) < length
    requires length <= PieceSize * n
    ensures n == (length + PieceSize - 1) / PieceSize
  {
  }

  /** The `i`-th piece fits in a field and carries its markers. */
  lemma PieceShape(value: string, i: nat, n: nat)
    requires 2 <= n && i < n && PieceSize * i <= |value|
    ensures var p := Piece(value, i, n);
      && |p| <= FieldLimit
      && (0 < i ==> Marker <= p)
      && (i < n - 1 ==> |p| >= |Marker| && p[|p| - |Marker|..] == Marker)
  {
    var seg := Segment(value, PieceSize * i);
    var p := Piece(value, i, n);
    assert |seg| <= PieceSize;
    if i == 0 {
      assert p == seg + Marker;
      assert p[|p| - 3..] == Marker;
    } else if i == n - 1 {
      assert p == Marker + seg;
      assert p[..3] == Marker;
    } else {
      assert p == Marker + seg + Marker;
      assert p[..3] == Marker;
      assert p[|p| - 3..] == Marker;
    }
  }

  /** When the pieces are those of `Piece`, they split the value faithfully. */
  lemma PiecesSplit(value: string, pieces: seq<string>)
    requires |pieces| >= 2 && PieceSize * (|pieces| - 1) < |value| <= PieceSize * |pieces|
    requires forall k :: 0 <= k < |pieces| ==> PieceSize * k <= |value| && pieces[k] == Piece(value, k, |pieces|)
    ensures SplitOf(value, pieces)
  {
    UnmarkPieces(value, pieces, 0);
    forall k | 0 <= k < |pieces|
      ensures |pieces[k]| <= FieldLimit
      ensures 0 < k ==> Marker <= pieces[k]
      ensures k < |pieces| - 1 ==> |pieces[k]| >= |Marker| && pieces[k][|pieces[k]| - |Marker|..] == Marker
    {
      PieceShape(value, k, |pieces|);
    }
    forall k | 0 <= k < |pieces| - 1 ensures |Unmarked(pieces, k)| == PieceSize {
      UnmarkedPiece(value, pieces, k);
      assert PieceSize * k + PieceSize <= PieceSize * (|pieces| - 1);
    }
  }

  /** The field values `_history` shows for one record: the value itself
      when it fits, otherwise the pieces of `range(0, len(value), 1018)`. */
  method SplitValue(value: string) returns (strings: seq<string>)
    ensures |value| <= FieldLimit ==> strings == [value]
    ensures |value| > FieldLimit ==> |strings| == (|value| + PieceSize - 1) / PieceSize && SplitOf(value, strings)
  {
    if |value| <= FieldLimit {
      return [value];
    }
    var offsets := Offsets(|value|);
    var n := |offsets|;
    strings := [];
    for i := 0 to n
      invariant |strings| == i
      invariant forall k :: 0 <= k < i ==> PieceSize * k <= |value| && strings[k] == Piece(value, k, n)
    {
      assert PieceSize * i <= PieceSize * (n - 1);
      var segment := value[offsets[i]..Min(offsets[i] + PieceSize, |value|)];
      if i == 0 {
        segment := segment + Marker;
      } else if i == n - 1 {
        segment := Marker + segment;
      } else {
        segment := Marker + segment + Marker;
      }
      strings := strings + [segment];
    }
    PiecesSplit(value, strings);
  }

  // ---------------------------------------------------------------------
  // The notes field of `_info`

  const NotesBudget := 924

  function TotalLength(lines: seq<string>): nat {
    if lines == [] then 0 else TotalLength(lines[..|lines| - 1]) + |lines[|lines| - 1]|
  }

  lemma {:induction false} TotalLengthGrows(lines: seq<string>, i: nat, j: nat)
    requires i <= j <= |lines|
    ensures TotalLength(lines[..i]) <= TotalLength(lines[..j])
    decreases j - i
  {
    if i < j {
      TotalLengthGrows(lines, i, j - 1);
      assert lines[..j][..j - 1] == lines[..j - 1];
    }
  }

  /** The notes `_info` lists, newest first, are the longest run from the
      start whose lengths add up to at most 924 characters; `truncated`
      says some were left out. */
  method NotesField(notes: seq<string>) returns (shown: seq<string>, truncated: bool)
    ensures |shown| <= |notes| && shown == notes[..|shown|]
    ensures TotalLength(shown) <= NotesBudget
    ensures truncated <==> |shown| < |notes|
    ensures forall j :: |shown| < j <= |notes| ==> TotalLength(notes[..j]) > NotesBudget
  {
    shown, truncated := [], false;
    var i := 0;
    while i < |notes|
      invariant 0 <= i <= |notes| && shown == notes[..i]
      invariant TotalLength(shown) <= NotesBudget
    {
      var noteContent := notes[i];
      var fieldLength := 0;
      for k := 0 to |shown|
        invariant fieldLength == TotalLength(shown[..k])
      {
        assert shown[..k + 1][..k] == shown[..k];
        fieldLength := fieldLength + |shown[k]|;
      }
      assert shown[..|shown|] == shown;
      assert notes[..i + 1][..i] == notes[..i];
      if |noteContent| + fieldLength > NotesBudget {
        truncated := true;
        forall j | i < j <= |notes| ensures TotalLength(notes[..j]) > NotesBudget {
          TotalLengthGrows(notes, i + 1, j);
        }
        return;
      }
      shown := shown + [noteContent];
      i := i + 1;
      assert shown == notes[..i];
    }
  }
}
