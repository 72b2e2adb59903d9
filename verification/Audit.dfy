/** The append-only audit log of `packages/moderation/src/audit.ts`. */
module Audit {
  import opened Core

  datatype EntityType = ReportEntity | CaseEntity | EvidenceEntity | DecisionEntity

  datatype Action =
    | ReportSubmitted | ReportTriaged | ReportMerged | ReportStatusChanged
    | CaseOpened | CaseAssigned | CaseReviewStarted | CaseEscalated | CaseReportsMerged | CaseResolved | CaseReopened
    | EvidenceCaptured | DecisionRecorded | DecisionReversed

  /** `actorId` is `None` for the system. */
  datatype NewEntry = NewEntry(
    occurredAt: int, actorId: Option<string>, action: Action, entityType: EntityType, entityId: string,
    subjectId: string, caseId: Option<string>, evidenceIds: seq<string>, decisionId: Option<string>)

  datatype Entry = Entry(entry: NewEntry, sequence: nat)

  /** Entries numbered from `first` on, in the order they are appended. */
  function Numbered(entries: seq<NewEntry>, first: nat): (r: seq<Entry>)
    ensures |r| == |entries|
    ensures forall i :: 0 <= i < |r| ==> r[i] == Entry(entries[i], first + i)
  {
    seq(|entries|, i requires 0 <= i < |entries| => Entry(entries[i], first + i))
  }

  /** What a log holds after `entries` were appended to it, one by one. */
  function Appended(rows: seq<Entry>, entries: seq<NewEntry>): seq<Entry> {
    rows + Numbered(entries, |rows|)
  }

  /** `sequence` is the index: monotonic and gap-free. */
  predicate InOrder(rows: seq<Entry>) {
    forall i :: 0 <= i < |rows| ==> rows[i].sequence == i
  }

  lemma AppendedInOrder(rows: seq<Entry>, entries: seq<NewEntry>)
    requires InOrder(rows)
    ensures InOrder(Appended(rows, entries)) && rows <= Appended(rows, entries)
  {
  }

  lemma AppendedTwice(rows: seq<Entry>, first: seq<NewEntry>, more: seq<NewEntry>)
    ensures Appended(Appended(rows, first), more) == Appended(rows, first + more)
  {
  }

  class AuditLog {
    var rows: seq<Entry>
    var nextSequence: nat

    predicate Valid()
      reads this
    {
      nextSequence == |rows| && InOrder(rows)
    }

    constructor ()
      ensures Valid() && rows == []
    {
      rows, nextSequence := [], 0;
    }

    method Append(entry: NewEntry) returns (stored: Entry)
      requires Valid()
      modifies this
      ensures Valid() && rows == Appended(old(rows), [entry]) && stored == Entry(entry, |old(rows)|)
    {
      stored := Entry(entry, nextSequence);
      nextSequence := nextSequence + 1;
      rows := rows + [stored];
    }

    /** Everything one actor did, in order. */
    method ByActor(actorId: Option<string>) returns (r: seq<Entry>)
      ensures forall e :: e in r <==> e in rows && e.entry.actorId == actorId
      ensures Valid() ==> Ascending(r)
    {
      r := Filter(rows, (e: Entry) => e.entry.actorId == actorId);
      if Valid() { FilterAscends(rows, (e: Entry) => e.entry.actorId == actorId); }
    }

    /** Everything that happened to one account, in order. */
    method BySubject(subjectId: string) returns (r: seq<Entry>)
      ensures forall e :: e in r <==> e in rows && e.entry.subjectId == subjectId
      ensures Valid() ==> Ascending(r)
    {
      r := Filter(rows, (e: Entry) => e.entry.subjectId == subjectId);
      if Valid() { FilterAscends(rows, (e: Entry) => e.entry.subjectId == subjectId); }
    }

    /** The whole history of one report, case, evidence item or decision, in order. */
    method ByEntity(entityType: EntityType, entityId: string) returns (r: seq<Entry>)
      ensures forall e :: e in r <==> e in rows && e.entry.entityType == entityType && e.entry.entityId == entityId
      ensures Valid() ==> Ascending(r)
    {
      r := Filter(rows, (e: Entry) => e.entry.entityType == entityType && e.entry.entityId == entityId);
      if Valid() { FilterAscends(rows, (e: Entry) => e.entry.entityType == entityType && e.entry.entityId == entityId); }
    }

    /** The chain of one case, in order. */
    method ForCase(caseId: string) returns (r: seq<Entry>)
      ensures forall e :: e in r <==> e in rows && e.entry.caseId == Some(caseId)
      ensures Valid() ==> Ascending(r)
    {
      r := Filter(rows, (e: Entry) => e.entry.caseId == Some(caseId));
      if Valid() { FilterAscends(rows, (e: Entry) => e.entry.caseId == Some(caseId)); }
    }
  }

  predicate Ascending(rows: seq<Entry>) {
    forall i, j :: 0 <= i < j < |rows| ==> rows[i].sequence < rows[j].sequence
  }

  lemma InOrderAscends(rows: seq<Entry>)
    requires InOrder(rows)
    ensures Ascending(rows)
  {
  }

  lemma {:induction false} AscendingFilter(rows: seq<Entry>, keep: Entry -> bool)
    requires Ascending(rows)
    ensures Ascending(Filter(rows, keep))
  {
    if rows != [] {
      AscendingFilter(rows[1..], keep);
      var rest := Filter(rows[1..], keep);
      forall i | 0 <= i < |rest| ensures rows[0].sequence < rest[i].sequence {
        assert rest[i] in rows[1..];
      }
    }
  }

  /** A projection keeps the order of the log and repeats nothing. */
  lemma {:induction false} FilterAscends(rows: seq<Entry>, keep: Entry -> bool)
    requires InOrder(rows)
    ensures Ascending(Filter(rows, keep))
  {
    InOrderAscends(rows);
    AscendingFilter(rows, keep);
  }
}
