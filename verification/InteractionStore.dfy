/**
 * The interaction tables (`packages/database/src/store-interaction.ts` and
 * `store-interaction-rows.ts`): likes, passes, blocks and matches under the unique
 * indexes of the migrations. Each method is one or two SQL statements.
 */
module InteractionStore {
  import opened Core
  import opened Interaction
  import opened InteractionRuns

  // ---------------------------------------------------------------- pair keys --

  /** `[a, b].sort().join('|')` (`packages/database/src/pair-key.ts`). */
  function PairKey(a: UserId, b: UserId): string {
    var sorted := SortStrings([a, b]);
    sorted[0] + "|" + sorted[1]
  }

  /** The index's key and the domain's identity are one derivation. */
  lemma PairKeyAgreesWithCanonicalPair(a: UserId, b: UserId)
    ensures PairKey(a, b) == CanonicalPair(a, b).0 + "|" + CanonicalPair(a, b).1
    ensures DeriveMatchId(a, b) == "match:" + PairKey(a, b)
    ensures PairKey(a, b) == PairKey(b, a)
  {
    StringLeqTotal(a, b);
    assert [a, b][1..] == [b] && [b, a][1..] == [a];
    assert SortStrings([b]) == [b] && SortStrings([a]) == [a];
    assert [b][1..] == [] && [a][1..] == [];
  }

  predicate NoBar(s: string) {
    forall i :: 0 <= i < |s| ==> s[i] != '|'
  }

  /** The middle text `m` read as part of the first id on one side and of the second on the other. */
  predicate Shifted(a: string, b: string, c: string, d: string, m: string) {
    a == c + "|" + m && d == m + "|" + b
  }

  /** Two joins agree exactly for equal parts, or when one id swallows the other's separator. */
  lemma JoinsAgreeIff(a: string, b: string, c: string, d: string)
    ensures a + "|" + b == c + "|" + d <==>
      (a, b) == (c, d) || (exists m :: Shifted(a, b, c, d, m)) || exists m :: Shifted(c, d, a, b, m)
  {
    if a + "|" + b == c + "|" + d {
      if |a| < |c| {
        JoinsShift(c, d, a, b);
      } else if |a| > |c| {
        JoinsShift(a, b, c, d);
      } else {
        var s := a + "|" + b;
        assert s[..|a|] == a && s[..|c|] == c && s[|a| + 1..] == b && s[|c| + 1..] == d;
      }
    }
  }

  lemma JoinsShift(a: string, b: string, c: string, d: string)
    requires a + "|" + b == c + "|" + d && |c| < |a|
    ensures Shifted(a, b, c, d, a[|c| + 1..])
  {
    var s := a + "|" + b;
    assert s[..|a|] == a && s[..|c|] == c && s[|c|] == '|' && s[|c| + 1..] == d;
    assert a[..|c|] == c && a[|c|] == '|';
    assert a == a[..|c|] + [a[|c|]] + a[|c| + 1..];
    assert d == a[|c| + 1..] + "|" + b;
  }

  /** Two pairs share a key exactly when they are one pair or an id of one contains the separator in the right place. */
  lemma PairKeysCollideIff(a: UserId, b: UserId, c: UserId, d: UserId)
    ensures
      var p, q := CanonicalPair(a, b), CanonicalPair(c, d);
      PairKey(a, b) == PairKey(c, d) <==>
        p == q || (exists m :: Shifted(p.0, p.1, q.0, q.1, m)) || exists m :: Shifted(q.0, q.1, p.0, p.1, m)
  {
    PairKeyAgreesWithCanonicalPair(a, b);
    PairKeyAgreesWithCanonicalPair(c, d);
    JoinsAgreeIff(CanonicalPair(a, b).0, CanonicalPair(a, b).1, CanonicalPair(c, d).0, CanonicalPair(c, d).1);
  }

  lemma ShiftNeedsABar(a: string, b: string, c: string, d: string, m: string)
    ensures Shifted(a, b, c, d, m) ==> !NoBar(a)
  {
    if Shifted(a, b, c, d, m) { assert a[|c|] == '|'; }
  }

  /** Ids without the separator, as database uuids are, have one key per unordered pair. */
  lemma PairKeyIdentifiesPair(a: UserId, b: UserId, c: UserId, d: UserId)
    requires NoBar(a) && NoBar(b) && NoBar(c) && NoBar(d)
    ensures PairKey(a, b) == PairKey(c, d) <==> CanonicalPair(a, b) == CanonicalPair(c, d)
  {
    PairKeysCollideIff(a, b, c, d);
    var p, q := CanonicalPair(a, b), CanonicalPair(c, d);
    forall m ensures !Shifted(p.0, p.1, q.0, q.1, m) && !Shifted(q.0, q.1, p.0, p.1, m) {
      ShiftNeedsABar(p.0, p.1, q.0, q.1, m);
      ShiftNeedsABar(q.0, q.1, p.0, p.1, m);
    }
  }

  /** With the separator inside an id, two different pairs share a key. */
  lemma BarMakesPairKeysCollide()
    ensures PairKey("a|b", "c") == PairKey("a", "b|c") && CanonicalPair("a|b", "c") != CanonicalPair("a", "b|c")
  {
    PairKeyAgreesWithCanonicalPair("a|b", "c");
    PairKeyAgreesWithCanonicalPair("a", "b|c");
    assert StringLeq("a|b", "c") && StringLeq("a", "b|c");
  }

  // ------------------------------------------------------------ match upserts --

  datatype MatchRow = MatchRow(
    matchId: string, pairKey: string, first: UserId, second: UserId, likeIds: seq<string>,
    standings: (MatchStanding, MatchStanding), createdAt: int, ended: Option<(int, EndCause)>)

  /** Rows by `pair_key`, which is unique. */
  type MatchTable = map<string, MatchRow>

  function FreshIds(present: seq<string>, incoming: seq<string>): seq<string> {
    Filter(incoming, (id: string) => id !in present)
  }

  /**
   * Refused before the statement, or by the primary key on `match_id`; a pair that has
   * a row already takes the update branch and never reaches that key.
   */
  predicate UpsertFaults(table: MatchTable, row: MatchRow) {
    !StringLeq(row.first, row.second)
    || (row.pairKey !in table && exists k :: k in table && table[k].matchId == row.matchId)
  }

  function Merged(was: MatchRow, row: MatchRow): MatchRow {
    was.(likeIds := was.likeIds + FreshIds(was.likeIds, row.likeIds))
  }

  function Upserted(table: MatchTable, row: MatchRow): MatchTable {
    if UpsertFaults(table, row) then table
    else if row.pairKey in table then table[row.pairKey := Merged(table[row.pairKey], row)]
    else table[row.pairKey := row]
  }

  function UpsertAll(rows: seq<MatchRow>): MatchTable {
    if rows == [] then map[] else Upserted(UpsertAll(rows[..|rows| - 1]), rows[|rows| - 1])
  }

  /** The row `upsertMatch` writes for a match of the domain. */
  function RowOf(m: Match): MatchRow {
    MatchRow(m.matchId, PairKey(m.first, m.second), m.first, m.second, [m.likeIds.0, m.likeIds.1],
             m.standings, m.createdAt, if m.ended.Some? then Some((m.ended.value.at, m.ended.value.cause)) else None)
  }

  /** Canonical participants, and the id that is one text with the key. */
  predicate Identified(row: MatchRow) {
    StringLeq(row.first, row.second) && row.matchId == "match:" + row.pairKey
  }

  predicate AllIdentified(rows: seq<MatchRow>) {
    forall i :: 0 <= i < |rows| ==> Identified(rows[i])
  }

  lemma CanonicalRow(m: Match, a: UserId, b: UserId)
    requires (m.first, m.second) == CanonicalPair(a, b) && m.matchId == DeriveMatchId(a, b)
    ensures Identified(RowOf(m))
  {
    StringLeqTotal(a, b);
    PairKeyAgreesWithCanonicalPair(a, b);
    assert PairKey(m.first, m.second) == PairKey(a, b);
  }

  /** What `resolveMatch` creates is always such a row, with two different like ids. */
  lemma CreatedMatchIsIdentified(
    actor: UserId, counterpart: UserId, likeId: string,
    ledger: seq<Like>, blocks: seq<Block>, passes: seq<Pass>, at: int, conversationId: Option<string>)
    requires var r := ResolveMatch(actor, counterpart, likeId, ledger, blocks, passes, at, conversationId);
             r.Ok? && r.value.MatchCreated?
    ensures var m := ResolveMatch(actor, counterpart, likeId, ledger, blocks, passes, at, conversationId).value.created;
            Identified(RowOf(m)) && m.likeIds.0 != m.likeIds.1
  {
    var m := ResolveMatch(actor, counterpart, likeId, ledger, blocks, passes, at, conversationId).value.created;
    CanonicalRow(m, actor, counterpart);
  }

  lemma PairKeyOfCanonicalPair(a: UserId, b: UserId)
    ensures PairKey(CanonicalPair(a, b).0, CanonicalPair(a, b).1) == PairKey(a, b)
  {
    StringLeqTotal(a, b);
    PairKeyAgreesWithCanonicalPair(a, b);
  }

  lemma FirstUpsertStores(row: MatchRow)
    requires Identified(row)
    ensures UpsertAll([row]) == map[row.pairKey := row]
  {
    assert [row][..0] == [];
  }

  lemma CreatedRowIs(
    actor: UserId, counterpart: UserId, likeId: string,
    ledger: seq<Like>, blocks: seq<Block>, passes: seq<Pass>, at: int, conversationId: Option<string>)
    requires var r := ResolveMatch(actor, counterpart, likeId, ledger, blocks, passes, at, conversationId);
             r.Ok? && r.value.MatchCreated?
    ensures var m := ResolveMatch(actor, counterpart, likeId, ledger, blocks, passes, at, conversationId).value.created;
            (m.first, m.second) == CanonicalPair(actor, counterpart) && m.standings == (Active, Active) && m.ended.None?
  {
  }

  /** The first upsert of a created match stores it as created: both active, not over, from the instant of its like. */
  lemma CreatedMatchIsStored(
    actor: UserId, counterpart: UserId, likeId: string,
    ledger: seq<Like>, blocks: seq<Block>, passes: seq<Pass>, at: int, conversationId: Option<string>, m: Match)
    requires ResolveMatch(actor, counterpart, likeId, ledger, blocks, passes, at, conversationId).Ok?
    requires ResolveMatch(actor, counterpart, likeId, ledger, blocks, passes, at, conversationId).value.MatchCreated?
    requires ResolveMatch(actor, counterpart, likeId, ledger, blocks, passes, at, conversationId).value.created == m
    ensures UpsertAll([RowOf(m)])
         == map[PairKey(actor, counterpart) :=
                  MatchRow(m.matchId, PairKey(actor, counterpart), m.first, m.second, [m.likeIds.0, m.likeIds.1],
                           (Active, Active), m.createdAt, None)]
  {
    CreatedMatchIsIdentified(actor, counterpart, likeId, ledger, blocks, passes, at, conversationId);
    CreatedRowIs(actor, counterpart, likeId, ledger, blocks, passes, at, conversationId);
    PairKeyOfCanonicalPair(actor, counterpart);
    FirstUpsertStores(RowOf(m));
  }

  /** A match that ended is stored with the instant and the cause of its end, one that did not with neither. */
  lemma EndedRowIs(m: Match)
    ensures RowOf(m).ended == match m.ended case None => None case Some(end) => Some((end.at, end.cause))
  {
  }

  /** Whatever is upserted, in any order, no two pairs ever share a match id. */
  lemma {:induction false} UpsertsKeepIdsApart(rows: seq<MatchRow>)
    ensures forall k, l :: k in UpsertAll(rows) && l in UpsertAll(rows) && k != l ==>
              UpsertAll(rows)[k].matchId != UpsertAll(rows)[l].matchId
  {
    if rows != [] { UpsertsKeepIdsApart(rows[..|rows| - 1]); }
  }

  /** Every like id the rows of one pair brought. */
  function LikesBrought(rows: seq<MatchRow>, key: string): set<string> {
    if rows == [] then {}
    else LikesBrought(rows[..|rows| - 1], key)
         + if rows[|rows| - 1].pairKey == key then ToSet(rows[|rows| - 1].likeIds) else {}
  }

  predicate PairSeen(rows: seq<MatchRow>, key: string) {
    exists i :: 0 <= i < |rows| && rows[i].pairKey == key
  }

  lemma {:induction false} KeysMatchIds(rows: seq<MatchRow>, key: string)
    requires AllIdentified(rows) && key in UpsertAll(rows)
    ensures UpsertAll(rows)[key].matchId == "match:" + key
  {
    var rest := rows[..|rows| - 1];
    if key in UpsertAll(rest) { KeysMatchIds(rest, key); }
  }

  lemma {:induction false} IdentifiedNeverFaults(rows: seq<MatchRow>, row: MatchRow)
    requires AllIdentified(rows) && Identified(row)
    ensures !UpsertFaults(UpsertAll(rows), row)
  {
    var table := UpsertAll(rows);
    forall k | k in table && k != row.pairKey ensures table[k].matchId != row.matchId {
      KeysMatchIds(rows, k);
      assert ("match:" + k)[6..] == k && ("match:" + row.pairKey)[6..] == row.pairKey;
    }
  }

  lemma MergedLikes(present: seq<string>, incoming: seq<string>)
    ensures ToSet(present + FreshIds(present, incoming)) == ToSet(present) + ToSet(incoming)
  {
  }

  /**
   * After any sequence of upserts there is one row per pair that was sent, and its
   * like ids are the union of what its upserts carried.
   */
  lemma {:induction false} UpsertsCollectEveryLike(rows: seq<MatchRow>, key: string)
    requires AllIdentified(rows)
    ensures key in UpsertAll(rows) <==> PairSeen(rows, key)
    ensures key in UpsertAll(rows) ==> ToSet(UpsertAll(rows)[key].likeIds) == LikesBrought(rows, key)
    ensures key !in UpsertAll(rows) ==> LikesBrought(rows, key) == {}
  {
    if rows != [] {
      var rest, row := rows[..|rows| - 1], rows[|rows| - 1];
      var table := UpsertAll(rest);
      UpsertsCollectEveryLike(rest, key);
      IdentifiedNeverFaults(rest, row);
      if PairSeen(rest, key) {
        var i :| 0 <= i < |rest| && rest[i].pairKey == key;
        assert rows[i].pairKey == key;
      }
      if row.pairKey == key && key in table { MergedLikes(table[key].likeIds, row.likeIds); }
    }
  }

  lemma {:induction false} BroughtBy(rows: seq<MatchRow>, key: string, id: string)
    ensures id in LikesBrought(rows, key) <==> exists i :: 0 <= i < |rows| && rows[i].pairKey == key && id in rows[i].likeIds
  {
    if rows != [] {
      var rest := rows[..|rows| - 1];
      BroughtBy(rest, key, id);
      if i :| 0 <= i < |rows| && rows[i].pairKey == key && id in rows[i].likeIds {
        if i < |rest| { assert rest[i] == rows[i]; }
      }
      if i :| 0 <= i < |rest| && rest[i].pairKey == key && id in rest[i].likeIds {
        assert rows[i] == rest[i];
      }
    }
  }

  lemma {:induction false} SameRowsSameFacts(rows: seq<MatchRow>, others: seq<MatchRow>, key: string)
    requires forall row :: row in rows ==> row in others
    ensures PairSeen(rows, key) ==> PairSeen(others, key)
    ensures LikesBrought(rows, key) <= LikesBrought(others, key)
  {
    forall id | id in LikesBrought(rows, key) ensures id in LikesBrought(others, key) {
      BroughtBy(rows, key, id);
      BroughtBy(others, key, id);
      var i :| 0 <= i < |rows| && rows[i].pairKey == key && id in rows[i].likeIds;
      assert rows[i] in others;
    }
    if PairSeen(rows, key) {
      var i :| 0 <= i < |rows| && rows[i].pairKey == key;
      assert rows[i] in others;
    }
  }

  /** Any order and repetition of the same upserts leaves the same pairs with the same like ids. */
  lemma {:induction false} UpsertOrderIrrelevant(rows: seq<MatchRow>, others: seq<MatchRow>, key: string)
    requires AllIdentified(rows) && AllIdentified(others)
    requires forall row :: row in rows <==> row in others
    ensures key in UpsertAll(rows) <==> key in UpsertAll(others)
    ensures key in UpsertAll(rows) ==> ToSet(UpsertAll(rows)[key].likeIds) == ToSet(UpsertAll(others)[key].likeIds)
  {
    UpsertsCollectEveryLike(rows, key);
    UpsertsCollectEveryLike(others, key);
    SameRowsSameFacts(rows, others, key);
    SameRowsSameFacts(others, rows, key);
  }

  /** Every id the list repeats is known already. */
  predicate RepeatsOnly(ids: seq<string>, known: set<string>) {
    forall i, j :: 0 <= i < j < |ids| && ids[i] == ids[j] ==> ids[i] in known
  }

  lemma {:induction false} FreshIdsNoDupIff(present: seq<string>, incoming: seq<string>)
    ensures NoDup(FreshIds(present, incoming)) <==> RepeatsOnly(incoming, ToSet(present))
  {
    if incoming != [] {
      var rest := incoming[1..];
      FreshIdsNoDupIff(present, rest);
      var fresh_ := FreshIds(present, rest);
      assert RepeatsOnly(incoming, ToSet(present)) <==>
        RepeatsOnly(rest, ToSet(present)) && (incoming[0] in rest ==> incoming[0] in present);
      if incoming[0] !in present {
        HeadNoDup(incoming[0], fresh_);
      }
    }
  }

  lemma HeadNoDup(x: string, rest: seq<string>)
    ensures NoDup([x] + rest) <==> x !in rest && NoDup(rest)
  {
    var all := [x] + rest;
    assert forall i :: 0 <= i < |rest| ==> all[i + 1] == rest[i];
    if NoDup(all) {
      forall i | 0 <= i < |rest| ensures rest[i] != x {
        assert all[0] != all[i + 1];
      }
      forall i, j | 0 <= i < j < |rest| ensures rest[i] != rest[j] {
        assert all[i + 1] != all[j + 1];
      }
    }
  }

  /** One upsert over a list without repetitions: the merged list has none exactly when what it adds has none. */
  lemma MergeRepeatsNothingIff(present: seq<string>, incoming: seq<string>)
    requires NoDup(present)
    ensures NoDup(present + FreshIds(present, incoming)) <==> RepeatsOnly(incoming, ToSet(present))
  {
    var added := FreshIds(present, incoming);
    var all := present + added;
    FreshIdsNoDupIff(present, incoming);
    assert forall i :: 0 <= i < |added| ==> added[i] in added && all[|present| + i] == added[i];
    if NoDup(all) {
      forall i, j | 0 <= i < j < |added| ensures added[i] != added[j] {
        assert all[|present| + i] != all[|present| + j];
      }
    }
  }

  /** A repetition stays. */
  lemma LongerRepeats(s: seq<string>, more: seq<string>)
    requires NoDup(s + more)
    ensures NoDup(s)
  {
    assert forall i :: 0 <= i < |s| ==> (s + more)[i] == s[i];
  }

  /** Each upsert of the pair repeats at most ids that earlier ones of the pair brought. */
  predicate RepeatsOldOnly(rows: seq<MatchRow>, key: string) {
    forall i :: 0 <= i < |rows| && rows[i].pairKey == key ==> RepeatsOnly(rows[i].likeIds, LikesBrought(rows[..i], key))
  }

  lemma {:induction false} RepeatsOldOnlyStep(rows: seq<MatchRow>, key: string)
    requires rows != []
    ensures var n := |rows| - 1;
      RepeatsOldOnly(rows, key) <==>
        RepeatsOldOnly(rows[..n], key) && (rows[n].pairKey == key ==> RepeatsOnly(rows[n].likeIds, LikesBrought(rows[..n], key)))
  {
    var rest := rows[..|rows| - 1];
    assert forall i :: 0 <= i < |rest| ==> rest[i] == rows[i] && rest[..i] == rows[..i];
  }

  /** The stored union repeats no like id exactly when no upsert of the pair repeats an id that is new to it. */
  lemma {:induction false} UpsertsRepeatNoLikeIff(rows: seq<MatchRow>, key: string)
    requires AllIdentified(rows) && key in UpsertAll(rows)
    ensures NoDup(UpsertAll(rows)[key].likeIds) <==> RepeatsOldOnly(rows, key)
  {
    var rest, row := rows[..|rows| - 1], rows[|rows| - 1];
    IdentifiedNeverFaults(rest, row);
    UpsertsCollectEveryLike(rest, key);
    RepeatsOldOnlyStep(rows, key);
    if key in UpsertAll(rest) {
      UpsertsRepeatNoLikeIff(rest, key);
      var present := UpsertAll(rest)[key].likeIds;
      if row.pairKey == key {
        if NoDup(present) {
          MergeRepeatsNothingIff(present, row.likeIds);
        } else if NoDup(present + FreshIds(present, row.likeIds)) {
          LongerRepeats(present, FreshIds(present, row.likeIds));
        }
      }
    } else {
      NothingStoredNothingRepeated(rest, key);
    }
  }

  lemma NothingStoredNothingRepeated(rows: seq<MatchRow>, key: string)
    requires !PairSeen(rows, key)
    ensures RepeatsOldOnly(rows, key)
  {
  }

  /** An upsert that repeats an id itself stores the repetition. */
  lemma RepeatedIdIsStored(row: MatchRow)
    requires row.likeIds == ["x", "x"] && StringLeq(row.first, row.second)
    ensures row.pairKey in UpsertAll([row]) && !NoDup(UpsertAll([row])[row.pairKey].likeIds)
  {
    assert [row][..0] == [];
    assert row.likeIds[0] == row.likeIds[1];
  }

  /** Everything of a row but its like ids is kept, and those only grow at the end. */
  predicate RowContinues(was: MatchRow, now: MatchRow) {
    now == was.(likeIds := now.likeIds) && was.likeIds <= now.likeIds
  }

  /** A pair's row, once written, is only ever extended: an ended match stays ended, with its first end. */
  lemma {:induction false} UpsertsNeverReviveAMatch(rows: seq<MatchRow>, more: seq<MatchRow>, key: string)
    requires key in UpsertAll(rows)
    ensures key in UpsertAll(rows + more) && RowContinues(UpsertAll(rows)[key], UpsertAll(rows + more)[key])
  {
    if more == [] {
      assert rows + more == rows;
    } else {
      var rest := more[..|more| - 1];
      UpsertsNeverReviveAMatch(rows, rest, key);
      assert (rows + more)[..|rows + more| - 1] == rows + rest;
      assert (rows + more)[|rows + more| - 1] == more[|more| - 1];
    }
  }

  // --------------------------------------------------------------- statements --

  datatype Write = Created | Replayed | ConflictRaised | FaultRaised

  predicate TablesValid(likes: seq<Like>, passes: seq<Pass>, blocks: seq<Block>) {
    UniqueLikeIds(likes) && OneCurrentLike(likes) && UniquePassIds(passes) && OneLivePass(passes)
    && UniqueBlockIds(blocks) && OneActiveBlock(blocks)
  }

  predicate UniquePassIds(passes: seq<Pass>) {
    forall i, j :: 0 <= i < j < |passes| ==> passes[i].passId != passes[j].passId
  }

  predicate UniqueBlockIds(blocks: seq<Block>) {
    forall i, j :: 0 <= i < j < |blocks| ==> blocks[i].blockId != blocks[j].blockId
  }

  /** `blocks_pair`: one active block per unordered pair. */
  predicate OneActiveBlock(blocks: seq<Block>) {
    forall i, j :: 0 <= i < j < |blocks| && blocks[i].active && blocks[j].active
      ==> !TouchesPair(blocks[j], blocks[i].blocker, blocks[i].blocked)
  }

  /** `LIVE_PASS_OWNED`: the liker's own live pass, unless it was recorded after the like. */
  predicate Supersedable(pass: Pass, like: NewLike) {
    pass.state == PassLive && PassOver(pass, like.from, like.to) && pass.createdAt <= like.createdAt
  }

  function OverriddenPass(passes: seq<Pass>, like: NewLike): Option<string> {
    var livePass := Find(passes, (pass: Pass) => Supersedable(pass, like));
    if livePass.Some? then Some(livePass.value.passId) else None
  }

  /** The passes after a like the store inserted. */
  function StorePasses(passes: seq<Pass>, like: NewLike): seq<Pass> {
    Map(passes, (pass: Pass) => if Supersedable(pass, like) then pass.(state := Superseded) else pass)
  }

  /** The rows a supersession by pair moves. */
  function OwnLive(passes: seq<Pass>, like: NewLike): seq<Pass> {
    if passes == [] then []
    else
      var last := passes[|passes| - 1];
      OwnLive(passes[..|passes| - 1], like) + if Supersedable(last, like) then [last] else []
  }

  predicate PassInsertable(passes: seq<Pass>, pass: NewPass) {
    forall i :: 0 <= i < |passes| ==>
      passes[i].passId != pass.passId && !(passes[i].state == PassLive && PassOver(passes[i], pass.from, pass.to))
  }

  function LivePass(pass: NewPass): Pass {
    Pass(pass.passId, pass.from, pass.to, pass.createdAt, PassLive)
  }

  predicate LikeInsertable(likes: seq<Like>, like: NewLike) {
    IdUnused(likes, like.likeId) && CurrentLikeBetween(likes, like.from, like.to).None?
  }

  predicate BlockInsertable(blocks: seq<Block>, blocker: UserId, blocked: UserId, blockId: string) {
    forall i :: 0 <= i < |blocks| ==>
      blocks[i].blockId != blockId && !(blocks[i].active && TouchesPair(blocks[i], blocker, blocked))
  }

  class InteractionTables {
    var likes: seq<Like>
    var passes: seq<Pass>
    var blocks: seq<Block>
    var matches: MatchTable

    ghost predicate Valid()
      reads this
    {
      TablesValid(likes, passes, blocks)
    }

    constructor ()
      ensures Valid() && likes == [] && passes == [] && blocks == [] && matches == map[]
    {
      likes, passes, blocks, matches := [], [], [], map[];
    }

    /** A like and the supersession it causes; a like that was not inserted leaves the pass alone. */
    method AppendLike(like: NewLike) returns (write: Write)
      requires Valid()
      modifies this`likes, this`passes
      ensures Valid()
      ensures write == Created <==>
                like.from != like.to
                && forall i :: 0 <= i < |old(likes)| ==>
                     old(likes)[i].likeId != like.likeId
                     && !(old(likes)[i].state != Withdrawn && old(likes)[i].from == like.from && old(likes)[i].to == like.to)
      ensures write != Created ==> likes == old(likes) && passes == old(passes)
      ensures write == Created ==>
                likes == old(likes) + [Like(like.likeId, like.from, like.to, like.createdAt, Live, OverriddenPass(old(passes), like))]
                && passes == StorePasses(old(passes), like)
      ensures write == ConflictRaised <==>
                like.from != like.to && IdUnused(old(likes), like.likeId) && CurrentLikeBetween(old(likes), like.from, like.to).Some?
      ensures write == Replayed <==>
                like.from != like.to
                && exists i :: 0 <= i < |old(likes)| && old(likes)[i].likeId == like.likeId
                               && old(likes)[i].from == like.from && old(likes)[i].to == like.to
    {
      if like.from == like.to {
        return FaultRaised;
      }
      var livePass := Find(passes, (pass: Pass) => Supersedable(pass, like));
      var supersededPassId := OverriddenPass(passes, like);
      if !LikeInsertable(likes, like) {
        var existing := Find(likes, (row: Like) => row.likeId == like.likeId);
        if existing.None? {
          return ConflictRaised;
        }
        return if existing.value.from == like.from && existing.value.to == like.to then Replayed else FaultRaised;
      }
      likes := likes + [Like(like.likeId, like.from, like.to, like.createdAt, Live, supersededPassId)];
      if supersededPassId.Some? {
        SupersededIsUnique(passes, like, livePass.value);
        passes := Map(passes, (pass: Pass) =>
          if pass.passId == supersededPassId.value && pass.state == PassLive && pass.createdAt <= like.createdAt
          then pass.(state := Superseded) else pass);
      }
      return Created;
    }

    /** A pass and nothing else: unlike the domain's, it withdraws no like. */
    method AppendPass(pass: NewPass) returns (write: Write)
      requires Valid()
      modifies this`passes
      ensures Valid()
      ensures write == Created <==>
                pass.from != pass.to
                && forall i :: 0 <= i < |old(passes)| ==>
                     old(passes)[i].passId != pass.passId
                     && !(old(passes)[i].state == PassLive && old(passes)[i].from == pass.from && old(passes)[i].to == pass.to)
      ensures passes == if write == Created then old(passes) + [Pass(pass.passId, pass.from, pass.to, pass.createdAt, PassLive)]
                        else old(passes)
      ensures write == ConflictRaised <==>
                pass.from != pass.to && (forall i :: 0 <= i < |old(passes)| ==> old(passes)[i].passId != pass.passId)
                && exists i :: 0 <= i < |old(passes)| && old(passes)[i].state == PassLive && PassOver(old(passes)[i], pass.from, pass.to)
      ensures write == Replayed <==>
                pass.from != pass.to
                && exists i :: 0 <= i < |old(passes)| && old(passes)[i].passId == pass.passId && PassOver(old(passes)[i], pass.from, pass.to)
    {
      if pass.from == pass.to {
        return FaultRaised;
      }
      if !PassInsertable(passes, pass) {
        var existing := Find(passes, (row: Pass) => row.passId == pass.passId);
        if existing.None? {
          return ConflictRaised;
        }
        return if existing.value.from == pass.from && existing.value.to == pass.to then Replayed else FaultRaised;
      }
      passes := passes + [LivePass(pass)];
      return Created;
    }

    /** The supersession a like causes, addressed by pair: the same rows move, and at most one. */
    method SupersedePass(from: UserId, to: UserId, at: int) returns (moved: nat)
      requires Valid()
      modifies this`passes
      ensures Valid() && moved <= 1
      ensures forall likeId :: passes == StorePasses(old(passes), NewLike(likeId, from, to, at))
      ensures moved == 1 <==> OverriddenPass(old(passes), NewLike("", from, to, at)).Some?
    {
      var like := NewLike("", from, to, at);
      AtMostOneMoves(passes, like);
      moved := |OwnLive(passes, like)|;
      passes := StorePasses(passes, like);
    }

    /** One active block per pair, in either direction. */
    method AppendBlock(blocker: UserId, blocked: UserId, blockId: string, at: int) returns (write: Write)
      requires Valid()
      modifies this`blocks
      ensures Valid()
      ensures write == Created <==>
                blocker != blocked
                && forall i :: 0 <= i < |old(blocks)| ==>
                     old(blocks)[i].blockId != blockId
                     && !(old(blocks)[i].active
                          && (old(blocks)[i].blocker, old(blocks)[i].blocked) in {(blocker, blocked), (blocked, blocker)})
      ensures blocks == if write == Created then old(blocks) + [Block(blockId, blocker, blocked, at, true)] else old(blocks)
      ensures write == ConflictRaised <==>
                blocker != blocked && (forall i :: 0 <= i < |old(blocks)| ==> old(blocks)[i].blockId != blockId)
                && ActiveBlockBetween(blocker, blocked, old(blocks)).Some?
      ensures write == Replayed <==>
                blocker != blocked
                && exists i :: 0 <= i < |old(blocks)| && old(blocks)[i].blockId == blockId
                               && (old(blocks)[i].blocker, old(blocks)[i].blocked) == (blocker, blocked)
    {
      if blocker == blocked {
        return FaultRaised;
      }
      if !BlockInsertable(blocks, blocker, blocked, blockId) {
        var existing := Find(blocks, (row: Block) => row.blockId == blockId);
        if existing.None? {
          return ConflictRaised;
        }
        return if existing.value.blocker == blocker && existing.value.blocked == blocked then Replayed else FaultRaised;
      }
      blocks := blocks + [Block(blockId, blocker, blocked, at, true)];
      return Created;
    }

    /** Lifts the one direction named, and keeps every row. */
    method LiftBlock(blocker: UserId, blocked: UserId) returns (moved: nat)
      requires Valid()
      modifies this`blocks
      ensures Valid()
      ensures |blocks| == |old(blocks)|
      ensures forall i :: 0 <= i < |blocks| ==>
                blocks[i] == if old(blocks)[i].blocker == blocker && old(blocks)[i].blocked == blocked
                             then old(blocks)[i].(active := false) else old(blocks)[i]
      ensures moved == |Filter(old(blocks), (b: Block) => b.active && b.blocker == blocker && b.blocked == blocked)|
    {
      moved := |Filter(blocks, (b: Block) => b.active && b.blocker == blocker && b.blocked == blocked)|;
      blocks := Map(blocks, (b: Block) => if b.active && b.blocker == blocker && b.blocked == blocked then b.(active := false) else b);
    }

    /** The row on record for the pair: this one if it is the first, the merged one if not. */
    method UpsertMatch(row: MatchRow) returns (stored: Option<MatchRow>)
      requires row.pairKey == PairKey(row.first, row.second)
      modifies this`matches
      ensures matches == Upserted(old(matches), row)
      ensures stored == if UpsertFaults(old(matches), row) then None else Some(matches[row.pairKey])
      ensures stored.None?
         <==> !StringLeq(row.first, row.second)
              || (row.pairKey !in old(matches) && exists k :: k in old(matches) && old(matches)[k].matchId == row.matchId)
    {
      if UpsertFaults(matches, row) {
        return None;
      }
      if row.pairKey in matches {
        matches := matches[row.pairKey := Merged(matches[row.pairKey], row)];
      } else {
        matches := matches[row.pairKey := row];
      }
      return Some(matches[row.pairKey]);
    }
  }

  lemma {:induction false} AtMostOneMoves(passes: seq<Pass>, like: NewLike)
    requires OneLivePass(passes)
    ensures |OwnLive(passes, like)| <= 1
    ensures |OwnLive(passes, like)| == 1 <==> OverriddenPass(passes, like).Some?
  {
    if passes != [] {
      var n := |passes| - 1;
      AtMostOneMoves(passes[..n], like);
      assert passes == passes[..n] + [passes[n]];
      var before := Find(passes[..n], (pass: Pass) => Supersedable(pass, like));
      if before.Some? {
        var i :| 0 <= i < n && passes[..n][i] == before.value;
        assert Supersedable(passes[i], like) && !Supersedable(passes[n], like);
      }
    }
  }

  lemma SupersededIsUnique(passes: seq<Pass>, like: NewLike, found: Pass)
    requires UniquePassIds(passes) && OneLivePass(passes) && found in passes && Supersedable(found, like)
    ensures forall k :: 0 <= k < |passes| ==>
              ((passes[k].passId == found.passId && passes[k].state == PassLive && passes[k].createdAt <= like.createdAt)
                <==> Supersedable(passes[k], like))
    ensures forall k :: 0 <= k < |passes| && Supersedable(passes[k], like) ==> passes[k] == found
  {
    var j :| 0 <= j < |passes| && passes[j] == found;
    forall k | 0 <= k < |passes| && (passes[k].passId == found.passId || Supersedable(passes[k], like)) ensures k == j {
    }
  }

  /**
   * The store supersedes any own live pass not recorded after the like; the domain any
   * own live pass inside its window at the action's clock `at`. The two agree exactly
   * when every own live pass is in effect at `at` just when it was recorded by then.
   */
  lemma StoreAndDomainSupersedeTheSame(passes: seq<Pass>, like: NewLike, at: int)
    ensures StorePasses(passes, like) == SupersedePasses(passes, like.from, like.to, at)
       <==> forall k :: 0 <= k < |passes| && passes[k].state == PassLive && PassOver(passes[k], like.from, like.to)
              ==> (IsPassInEffect(passes[k], at) <==> passes[k].createdAt <= like.createdAt)
  {
    var store, domain := StorePasses(passes, like), SupersedePasses(passes, like.from, like.to, at);
    if store == domain {
      forall k | 0 <= k < |passes| && passes[k].state == PassLive && PassOver(passes[k], like.from, like.to)
        ensures IsPassInEffect(passes[k], at) <==> passes[k].createdAt <= like.createdAt
      {
        assert store[k].state == domain[k].state;
      }
    }
  }
}
