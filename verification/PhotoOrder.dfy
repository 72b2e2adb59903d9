/**
 * The two-statement photo reorder (`reorderProfilePhotos` of
 * `packages/database/src/store-interaction.ts`). A unique index is checked row by
 * row inside a statement, so what matters is every intermediate table, for every
 * order in which the statement may visit its rows.
 */
module PhotoOrder {
  import opened Core

  /** `position` is present exactly when the photo is approved, by the table's CHECK. */
  datatype Photo = Photo(userId: string, position: Option<int>)

  /** Published photos of one owner, by id. */
  type Positions = map<string, int>

  predicate IndexHolds(pos: Positions) {
    forall p, q :: p in pos && q in pos && p != q ==> pos[p] != pos[q]
  }

  /** One UPDATE over the whole set, visiting rows in `order`; `None` when the index refuses a row. */
  function Visit(pos: Positions, order: seq<string>, target: Positions): Option<Positions>
    decreases |order|
  {
    if order == [] then Some(pos)
    else if order[0] !in target then Visit(pos, order[1..], target)
    else
      var next := pos[order[0] := target[order[0]]];
      if IndexHolds(next) then Visit(next, order[1..], target) else None
  }

  ghost predicate VisitsAll(order: seq<string>, pos: Positions) {
    NoDup(order) && forall id :: id in order <==> id in pos
  }

  /** No row's target is another row's present position. */
  predicate TargetsClear(pos: Positions, target: Positions) {
    forall p, q :: p in target && q in pos && p != q ==> target[p] != pos[q]
  }

  /** Rows still to visit keep their position; the others have their target. */
  predicate PartWay(pos: Positions, target: Positions, rest: seq<string>, now: Positions)
    requires target.Keys == pos.Keys
  {
    now.Keys == pos.Keys && forall id :: id in now ==> now[id] == if id in rest then pos[id] else target[id]
  }

  lemma PartWayIndexHolds(pos: Positions, target: Positions, rest: seq<string>, now: Positions)
    requires target.Keys == pos.Keys && IndexHolds(pos) && IndexHolds(target) && TargetsClear(pos, target)
    requires PartWay(pos, target, rest, now)
    ensures IndexHolds(now)
  {
  }

  lemma {:induction false} VisitReachesTarget(pos: Positions, target: Positions, rest: seq<string>, now: Positions)
    requires target.Keys == pos.Keys && IndexHolds(pos) && IndexHolds(target) && TargetsClear(pos, target)
    requires NoDup(rest) && (forall id :: id in rest ==> id in pos) && PartWay(pos, target, rest, now)
    ensures Visit(now, rest, target) == Some(target)
    decreases |rest|
  {
    if rest == [] {
      assert now == target;
    } else {
      var next := now[rest[0] := target[rest[0]]];
      assert rest[0] !in rest[1..];
      assert PartWay(pos, target, rest[1..], next);
      PartWayIndexHolds(pos, target, rest[1..], next);
      VisitReachesTarget(pos, target, rest[1..], next);
    }
  }

  /** A visit of every row that is not refused ends on the target. */
  lemma {:induction false} VisitEndsOnTarget(pos: Positions, target: Positions, rest: seq<string>, now: Positions)
    requires target.Keys == pos.Keys && NoDup(rest) && (forall id :: id in rest ==> id in pos) && PartWay(pos, target, rest, now)
    ensures Visit(now, rest, target).Some? ==> Visit(now, rest, target) == Some(target)
    decreases |rest|
  {
    if rest == [] {
      assert now == target;
    } else {
      var next := now[rest[0] := target[rest[0]]];
      assert rest[0] !in rest[1..];
      VisitEndsOnTarget(pos, target, rest[1..], next);
    }
  }

  /** Visiting `p` first, while `q` still sits on its target, is refused. */
  lemma OccupiedTargetRefused(pos: Positions, target: Positions, p: string, q: string) returns (order: seq<string>)
    requires target.Keys == pos.Keys && p in pos && q in pos && p != q && target[p] == pos[q]
    ensures VisitsAll(order, pos) && Visit(pos, order, target) == None
  {
    var others := Listing(pos.Keys - {p});
    order := [p] + others;
    var next := pos[p := target[p]];
    assert next[p] == next[q];
    assert order[0] == p && !IndexHolds(next);
  }

  /** A table can be renumbered in every visiting order exactly when no target is occupied by another row. */
  lemma {:induction false} EveryOrderSafeIff(pos: Positions, target: Positions)
    requires target.Keys == pos.Keys && IndexHolds(pos) && IndexHolds(target)
    ensures TargetsClear(pos, target) <==> forall order :: VisitsAll(order, pos) ==> Visit(pos, order, target) == Some(target)
  {
    if TargetsClear(pos, target) {
      forall order | VisitsAll(order, pos) ensures Visit(pos, order, target) == Some(target) {
        VisitReachesTarget(pos, target, order, pos);
      }
    } else {
      var p, q :| p in target && q in pos && p != q && target[p] == pos[q];
      var order := OccupiedTargetRefused(pos, target, p, q);
    }
  }

  ghost function Listing(s: set<string>): (r: seq<string>)
    ensures NoDup(r) && forall x :: x in r <==> x in s
  {
    if s == {} then [] else
      var x :| x in s;
      [x] + Listing(s - {x})
  }

  // ------------------------------------------------------ the two statements --

  const OFFSET := 1000

  /** `REORDER_PROFILE_PHOTOS`: photo `ordered[i]` goes to `i + 1000`. */
  function Staged(ordered: seq<string>): (t: Positions)
    requires NoDup(ordered)
    ensures forall i :: 0 <= i < |ordered| ==> ordered[i] in t && t[ordered[i]] == i + OFFSET
    ensures forall id :: id in t <==> id in ordered
  {
    if ordered == [] then map[] else
      var last := |ordered| - 1;
      Staged(ordered[..last])[ordered[last] := last + OFFSET]
  }

  /** `FINALISE_PROFILE_PHOTO_ORDER`: every row at 1000 or beyond comes down by 1000. */
  function Landed(pos: Positions): Positions {
    map id | id in pos && pos[id] >= OFFSET :: pos[id] - OFFSET
  }

  lemma {:induction false} StagedIsInjective(ordered: seq<string>)
    requires NoDup(ordered)
    ensures IndexHolds(Staged(ordered))
  {
    var t := Staged(ordered);
    forall p, q | p in t && q in t && p != q ensures t[p] != t[q] {
      var i :| 0 <= i < |ordered| && ordered[i] == p;
      var j :| 0 <= j < |ordered| && ordered[j] == q;
    }
  }

  lemma {:induction false} LandedIs(ordered: seq<string>)
    requires NoDup(ordered)
    ensures var t := Staged(ordered);
            Landed(t).Keys == t.Keys && IndexHolds(Landed(t))
            && forall i :: 0 <= i < |ordered| ==> Landed(t)[ordered[i]] == i
  {
    var t := Staged(ordered);
    forall id | id in t ensures t[id] >= OFFSET {
      var i :| 0 <= i < |ordered| && ordered[i] == id;
    }
    StagedIsInjective(ordered);
  }

  /** The first statement is safe in every order exactly when no other photo already sits on a staged position. */
  lemma {:induction false} StagingSafeIff(pos: Positions, ordered: seq<string>)
    requires IndexHolds(pos) && NoDup(ordered) && forall id :: id in ordered <==> id in pos
    ensures (forall order :: VisitsAll(order, pos) ==> Visit(pos, order, Staged(ordered)) == Some(Staged(ordered)))
       <==> forall i, q :: 0 <= i < |ordered| && q in pos && q != ordered[i] ==> pos[q] != i + OFFSET
  {
    var t := Staged(ordered);
    StagedIsInjective(ordered);
    EveryOrderSafeIff(pos, t);
    if forall i, q :: 0 <= i < |ordered| && q in pos && q != ordered[i] ==> pos[q] != i + OFFSET {
      forall p, q | p in t && q in pos && p != q ensures t[p] != pos[q] {
        var i :| 0 <= i < |ordered| && ordered[i] == p;
      }
    }
  }

  /** The second is safe in every order exactly when there are at most 1000 photos. */
  lemma {:induction false} LandingSafeIff(ordered: seq<string>)
    requires NoDup(ordered)
    ensures var t := Staged(ordered);
            (forall order :: VisitsAll(order, t) ==> Visit(t, order, Landed(t)) == Some(Landed(t))) <==> |ordered| <= 1000
  {
    var t := Staged(ordered);
    StagedIsInjective(ordered);
    LandedIs(ordered);
    EveryOrderSafeIff(t, Landed(t));
    if |ordered| <= 1000 {
      forall p, q | p in t && q in t && p != q ensures Landed(t)[p] != t[q] {
        var i :| 0 <= i < |ordered| && ordered[i] == p;
        var j :| 0 <= j < |ordered| && ordered[j] == q;
      }
    } else {
      assert Landed(t)[ordered[1000]] == 1000 == t[ordered[0]];
    }
  }

  // --------------------------------------------------------------- the store --

  /** At most 1000 published photos, all placed below 1000. */
  predicate SmallSet(pos: Positions) {
    |pos| <= 1000 && forall id :: id in pos ==> pos[id] <= 999
  }

  /** No row appears or goes, none changes hands, and only those named change at all. */
  ghost predicate OthersKept(before: map<string, Photo>, after: map<string, Photo>, moved: set<string>) {
    after.Keys == before.Keys
    && (forall id :: id in after && id !in moved ==> after[id] == before[id])
    && (forall id :: id in after ==> after[id].userId == before[id].userId)
  }

  datatype ReorderFault = NotThePublishedSet | IndexViolated

  class PhotoTable {
    var photos: map<string, Photo>

    function Published(userId: string): (pos: Positions)
      reads this
      ensures forall id :: id in pos <==> id in photos && photos[id].userId == userId && photos[id].position.Some?
      ensures forall id :: id in pos ==> pos[id] == photos[id].position.value
    {
      map id | id in photos && photos[id].userId == userId && photos[id].position.Some? :: photos[id].position.value
    }

    /** The ids of the published set; the caller sorts them, so their order is left open. */
    method SelectPublished(userId: string) returns (ids: seq<string>)
      ensures VisitsAll(ids, Published(userId))
    {
      var rest := Published(userId).Keys;
      ids := [];
      while rest != {}
        invariant NoDup(ids)
        invariant forall id :: id in ids <==> id in Published(userId) && id !in rest
        invariant rest <= Published(userId).Keys
        decreases rest
      {
        var id :| id in rest;
        rest := rest - {id};
        ids := ids + [id];
      }
    }

    /**
     * Renumbers the published set, visiting rows in whatever two orders the database
     * picks. A refused row aborts the request and leaves the table as it was; with at
     * most 1000 photos at positions 0..999 no row is ever refused.
     */
    method ReorderProfilePhotos(userId: string, ordered: seq<string>, visitStaging: seq<string>, visitLanding: seq<string>)
      returns (r: Result<nat, ReorderFault>)
      requires IndexHolds(Published(userId))
      requires VisitsAll(visitStaging, Published(userId)) && VisitsAll(visitLanding, Published(userId))
      modifies this
      ensures r == Err(NotThePublishedSet) <==> !VisitsAll(ordered, old(Published(userId)))
      ensures VisitsAll(ordered, old(Published(userId))) ==>
                (r.Ok? <==> Visit(old(Published(userId)), visitStaging, Staged(ordered)).Some?
                            && Visit(Staged(ordered), visitLanding, Landed(Staged(ordered))).Some?)
      ensures SmallSet(old(Published(userId))) ==> r != Err(IndexViolated)
      ensures r.Err? ==> photos == old(photos)
      ensures r.Ok? ==> r.value == |ordered|
      ensures r.Ok? ==> forall i :: 0 <= i < |ordered| ==> ordered[i] in Published(userId) && Published(userId)[ordered[i]] == i
      ensures IndexHolds(Published(userId)) && OthersKept(old(photos), photos, old(Published(userId)).Keys)
    {
      var current := SelectPublished(userId);
      SortedListsMatchIff(current, ordered, Published(userId));
      if |ordered| != |current| || SortStrings(current) != SortStrings(ordered) {
        return Err(NotThePublishedSet);
      }
      var done := RunBothStatements(userId, ordered, visitStaging, visitLanding);
      return if done then Ok(|ordered|) else Err(IndexViolated);
    }

    /** Both statements, in any two row orders: exactly what visiting the rows one by one allows. */
    method RunBothStatements(userId: string, ordered: seq<string>, visitStaging: seq<string>, visitLanding: seq<string>)
      returns (done: bool)
      requires IndexHolds(Published(userId)) && VisitsAll(ordered, Published(userId))
      requires VisitsAll(visitStaging, Published(userId)) && VisitsAll(visitLanding, Published(userId))
      modifies this
      ensures done <==> Visit(old(Published(userId)), visitStaging, Staged(ordered)).Some?
                        && Visit(Staged(ordered), visitLanding, Landed(Staged(ordered))).Some?
      ensures SmallSet(old(Published(userId))) ==> done
      ensures !done ==> photos == old(photos)
      ensures done ==> Published(userId) == Landed(Staged(ordered))
      ensures done ==> forall i :: 0 <= i < |ordered| ==> ordered[i] in Published(userId) && Published(userId)[ordered[i]] == i
      ensures IndexHolds(Published(userId)) && OthersKept(old(photos), photos, old(Published(userId)).Keys)
    {
      var saved, target := photos, Staged(ordered);
      SmallSetsPass(Published(userId), ordered, visitStaging, visitLanding);
      LandedIs(ordered);
      var staged := SetEach(userId, visitStaging, target);
      if !staged {
        return false;
      }
      var landed := SetEach(userId, visitLanding, Landed(target));
      if !landed {
        photos := saved;
      }
      return landed;
    }

    /** One UPDATE, row by row: `false`, with nothing changed, exactly when the index refuses a row on the way. */
    method SetEach(userId: string, order: seq<string>, target: Positions) returns (ok: bool)
      requires target.Keys == Published(userId).Keys && VisitsAll(order, Published(userId))
      modifies this
      ensures ok <==> Visit(old(Published(userId)), order, target).Some?
      ensures ok ==> Published(userId) == target
      ensures !ok ==> photos == old(photos)
      ensures OthersKept(old(photos), photos, target.Keys)
    {
      var saved := photos;
      ghost var outcome := Visit(Published(userId), order, target);
      VisitEndsOnTarget(Published(userId), target, order, Published(userId));
      for k := 0 to |order|
        invariant OthersKept(saved, photos, target.Keys)
        invariant StillToVisit(Published(userId), order[k..], target, outcome)
      {
        StepToVisit(Published(userId), order, k, target, outcome);
        var accepted := SetOne(userId, order[k], target[order[k]], saved, target.Keys);
        if !accepted {
          photos := saved;
          return false;
        }
      }
      NoneToVisit(Published(userId), order[|order|..], target, outcome);
      return true;
    }

    /** One row; `accepted` when the index still holds after it. */
    method SetOne(userId: string, id: string, position: int, ghost saved: map<string, Photo>, ghost moved: set<string>)
      returns (accepted: bool)
      requires id in Published(userId) && id in moved && OthersKept(saved, photos, moved)
      modifies this
      ensures Published(userId) == old(Published(userId))[id := position]
      ensures accepted <==> IndexHolds(Published(userId))
      ensures OthersKept(saved, photos, moved)
    {
      photos := photos[id := photos[id].(position := Some(position))];
      accepted := IndexHolds(Published(userId));
    }
  }

  /** What the visit comes to, said of the rows not visited yet. */
  predicate StillToVisit(now: Positions, rest: seq<string>, target: Positions, outcome: Option<Positions>) {
    now.Keys == target.Keys && (forall id :: id in rest ==> id in target) && Visit(now, rest, target) == outcome
  }

  lemma StepToVisit(now: Positions, order: seq<string>, k: nat, target: Positions, outcome: Option<Positions>)
    requires k < |order| && StillToVisit(now, order[k..], target, outcome)
    ensures order[k] in target
    ensures var next := now[order[k] := target[order[k]]];
            if IndexHolds(next) then StillToVisit(next, order[k + 1..], target, outcome) else outcome == None
  {
    assert order[k..][0] == order[k] && order[k..][1..] == order[k + 1..];
  }

  lemma NoneToVisit(now: Positions, rest: seq<string>, target: Positions, outcome: Option<Positions>)
    requires rest == [] && StillToVisit(now, rest, target, outcome)
    ensures outcome == Some(now)
  {
  }

  lemma {:induction false} StagedClear(pos: Positions, ordered: seq<string>)
    requires NoDup(ordered)
    ensures (forall id :: id in pos ==> pos[id] <= 999) ==> TargetsClear(pos, Staged(ordered))
  {
    var t := Staged(ordered);
    forall p, q | p in t && q in pos && p != q && pos[q] <= 999 ensures t[p] != pos[q] {
      var i :| 0 <= i < |ordered| && ordered[i] == p;
    }
  }

  lemma {:induction false} LandedClear(ordered: seq<string>)
    requires NoDup(ordered)
    ensures |ordered| <= 1000 ==> TargetsClear(Staged(ordered), Landed(Staged(ordered)))
  {
    var t := Staged(ordered);
    LandedIs(ordered);
    forall p, q | p in t && q in t && p != q && |ordered| <= 1000 ensures Landed(t)[p] != t[q] {
      var i :| 0 <= i < |ordered| && ordered[i] == p;
      var j :| 0 <= j < |ordered| && ordered[j] == q;
    }
  }

  /** At most 1000 photos at positions 0..999 are never refused. */
  lemma {:induction false} SmallSetsPass(pos: Positions, ordered: seq<string>, visitStaging: seq<string>, visitLanding: seq<string>)
    requires IndexHolds(pos) && VisitsAll(ordered, pos) && VisitsAll(visitStaging, pos) && VisitsAll(visitLanding, pos)
    ensures SmallSet(pos) ==>
              Visit(pos, visitStaging, Staged(ordered)).Some? && Visit(Staged(ordered), visitLanding, Landed(Staged(ordered))).Some?
  {
    if SmallSet(pos) {
      NoDupCardinality(ordered);
      assert ToSet(ordered) == pos.Keys;
      StagedIsInjective(ordered);
      StagedClear(pos, ordered);
      VisitReachesTarget(pos, Staged(ordered), visitStaging, pos);
      LandedIs(ordered);
      LandedClear(ordered);
      VisitReachesTarget(Staged(ordered), Landed(Staged(ordered)), visitLanding, Staged(ordered));
    }
  }

  /** The list check of `reorderProfilePhotos` passes exactly for permutations of the published set. */
  lemma {:induction false} SortedListsMatchIff(current: seq<string>, ordered: seq<string>, pos: Positions)
    requires VisitsAll(current, pos)
    ensures |ordered| == |current| && SortStrings(current) == SortStrings(ordered) <==> VisitsAll(ordered, pos)
  {
    SortsAgree(current, ordered);
    SameBagIff(current, ordered);
  }

  /** Against a list without repeats, being a permutation is having the same members once each. */
  lemma SameBagIff(current: seq<string>, ordered: seq<string>)
    requires NoDup(current)
    ensures multiset(current) == multiset(ordered) <==> NoDup(ordered) && forall id :: id in ordered <==> id in current
    ensures multiset(current) == multiset(ordered) ==> |current| == |ordered|
  {
    NoDupCounts(current);
    if multiset(current) == multiset(ordered) {
      assert |multiset(current)| == |multiset(ordered)|;
      forall id ensures id in ordered <==> id in current {
        assert id in multiset(ordered) <==> id in multiset(current);
      }
      CountsNoDup(ordered);
    }
    if NoDup(ordered) && forall id :: id in ordered <==> id in current {
      NoDupCounts(ordered);
      assert multiset(current) == multiset(ordered);
    }
  }

  lemma {:induction false} NoDupCounts(s: seq<string>)
    requires NoDup(s)
    ensures forall x :: multiset(s)[x] == if x in s then 1 else 0
  {
    if s != [] {
      var rest, last := s[..|s| - 1], s[|s| - 1];
      NoDupCounts(rest);
      assert s == rest + [last] && last !in rest;
    }
  }

  lemma RepeatsCountTwice(s: seq<string>, i: nat, j: nat)
    requires i < j < |s|
    ensures s[i] == s[j] ==> multiset(s)[s[i]] >= 2
  {
    assert s == s[..i] + [s[i]] + s[i + 1..j] + [s[j]] + s[j + 1..];
  }

  lemma CountsNoDup(s: seq<string>)
    requires forall x :: multiset(s)[x] <= 1
    ensures NoDup(s)
  {
    forall i, j | 0 <= i < j < |s| ensures s[i] != s[j] {
      RepeatsCountTwice(s, i, j);
    }
  }

  /** A photo already at 1000 can collide with the first staged row. */
  lemma OffsetCollides()
    ensures var pos: Positions := map["p" := 1000, "q" := 0];
            IndexHolds(pos) && Visit(pos, ["q", "p"], Staged(["q", "p"])) == None
  {
    var pos: Positions := map["p" := 1000, "q" := 0];
    var t := Staged(["q", "p"]);
    assert t[["q", "p"][0]] == 1000;
    assert ["q", "p"][0] in t;
    var next := pos["q" := 1000];
    assert next["p"] == next["q"];
  }
}
