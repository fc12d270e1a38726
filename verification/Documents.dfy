/** Document expiry and its reminder job (src/domain/documents.ts), the second user of the reminder ledger. */
module Documents {
  import opened Common
  import opened Calendar
  import opened Reminders

  datatype DocumentStatus = Valid | Expiring | Expired

  datatype Document = Document(
    owner: Option<string>, number: Option<string>, expiryDate: Option<int>, version: nat, status: DocumentStatus,
    archived: bool, sent: set<real>)

  datatype Error = ExpiryRequired | NotFound | Forbidden

  /** Whole days left, rounded down here (the job rounds up). */
  function StatusAt(expiry: Option<int>, now: int): DocumentStatus {
    if expiry.None? then Valid
    else
      var days := (expiry.value - now) / DAY;
      if days < 0 then Expired else if days <= 30 then Expiring else Valid
  }

  function Renewed(d: Document, allowed: bool, expiry: Option<int>, number: Option<string>, now: int): Result<Document, Error> {
    if expiry.None? then Err(ExpiryRequired)
    else if d.archived then Err(NotFound)
    else if !allowed then Err(Forbidden)
    else Ok(d.(expiryDate := expiry, number := if number.Some? then number else d.number, version := d.version + 1,
               status := StatusAt(expiry, now), sent := {}))
  }

  function LedgerOf(d: Document): Ledger {
    Ledger(d.expiryDate, d.sent)
  }

  /** The job's query: live, with an expiry that has not passed. */
  predicate Scanned(d: Document, now: int) {
    !d.archived && d.expiryDate.Some? && d.expiryDate.value >= now
  }

  function Reminded(d: Document, thresholds: seq<real>, now: int): Document {
    if Fires(LedgerOf(d), thresholds, now, Scanned(d, now)) then
      d.(sent := Job(LedgerOf(d), thresholds, now, true).sent,
         status := if DaysLeft(d.expiryDate.value, now) <= 30 then Expiring else d.status)
    else d
  }

  function Handled(d: Document, i: nat, batch: set<nat>, thresholds: seq<real>, now: int): Document {
    if i in batch then Reminded(d, thresholds, now) else d
  }

  predicate Announced(d: Document, i: nat, batch: set<nat>, thresholds: seq<real>, now: int) {
    i in batch && d.owner.Some? && Fires(LedgerOf(d), thresholds, now, Scanned(d, now))
  }

  /** `batch` holds the positions of the rows the query returned (it takes 2000 at most, in no given order). */
  function RemindBatch(docs: seq<Document>, batch: set<nat>, thresholds: seq<real>, now: int): seq<Document> {
    seq(|docs|, i requires 0 <= i < |docs| => Handled(docs[i], i, batch, thresholds, now))
  }

  /** Documents without an owner are marked but nobody is notified. */
  function AnnouncedAt(docs: seq<Document>, batch: set<nat>, thresholds: seq<real>, now: int): nat -> bool {
    (i: nat) => i < |docs| && Announced(docs[i], i, batch, thresholds, now)
  }

  function ScannedAt(docs: seq<Document>, batch: set<nat>, now: int): nat -> bool {
    (i: nat) => i < |docs| && i in batch && Scanned(docs[i], now)
  }

  const DEFAULT_CERT_THRESHOLDS: seq<real> := [180.0, 120.0, 90.0, 60.0, 30.0, 14.0, 7.0, 1.0]

  function UpTo(thresholds: seq<real>, lead: real): (r: seq<real>)
    ensures forall t :: t in r <==> t in thresholds && t <= lead
  {
    if thresholds == [] then []
    else (if thresholds[0] <= lead then [thresholds[0]] else []) + UpTo(thresholds[1..], lead)
  }

  /** The thresholds in force: those of the settings, if readable, cut at the configured lead. */
  function CertThresholds(setting: Option<seq<real>>, lead: Option<real>): seq<real> {
    var thresholds := setting.GetOr(DEFAULT_CERT_THRESHOLDS);
    if lead.Some? then UpTo(thresholds, lead.value) else thresholds
  }

  /** No reminder goes out earlier than the configured lead. */
  lemma LeadIsRespected(setting: Option<seq<real>>, lead: real, d: Document, now: int)
    ensures Fires(LedgerOf(d), CertThresholds(setting, Some(lead)), now, Scanned(d, now)) ==>
              d.expiryDate.Some? && DaysLeft(d.expiryDate.value, now) as real <= lead
  {
    if Fires(LedgerOf(d), CertThresholds(setting, Some(lead)), now, Scanned(d, now)) {
      var reached := Reached(CertThresholds(setting, Some(lead)), DaysLeft(d.expiryDate.value, now));
      var t :| t in reached && t !in d.sent;
    }
  }

  class DocumentStore {
    var docs: seq<Document>

    constructor (rows: seq<Document>)
      ensures docs == rows
    {
      docs := rows;
    }

    method Renew(i: nat, allowed: bool, expiry: Option<int>, number: Option<string>, now: int) returns (error: Option<Error>)
      modifies this
      ensures docs == ApplyAll(old(docs), RenewDoc(i, now, allowed, expiry, number), [])
      ensures i < |old(docs)| ==> error == ErrorOf(Renewed(old(docs)[i], allowed, expiry, number, now))
      ensures i >= |old(docs)| ==> error == Some(if expiry.None? then ExpiryRequired else NotFound)
    {
      if expiry.None? { return Some(ExpiryRequired); }
      if i >= |docs| || docs[i].archived { return Some(NotFound); }
      if !allowed { return Some(Forbidden); }
      var d := docs[i];
      d := d.(expiryDate := expiry, version := d.version + 1, status := StatusAt(expiry, now), sent := {});
      if number.Some? { d := d.(number := number); }
      docs := docs[i := d];
      return None;
    }

    method RemindOne(i: nat, thresholds: seq<real>, now: int) returns (notified: bool)
      requires i < |docs|
      modifies this
      ensures docs == old(docs)[i := Reminded(old(docs)[i], thresholds, now)]
      ensures notified == Announced(old(docs)[i], i, {i}, thresholds, now)
    {
      var d := docs[i];
      if d.archived || d.expiryDate.None? || d.expiryDate.value < now { return false; }
      var daysLeft := DaysLeft(d.expiryDate.value, now);
      assert daysLeft >= 0;
      var reached := Reached(thresholds, daysLeft);
      var unsent := reached - d.sent;
      NothingUnsent(reached, d.sent);
      if unsent == {} { return false; }
      var status := if daysLeft <= 30 then Expiring else d.status;
      docs := docs[i := d.(sent := d.sent + reached, status := status)];
      return d.owner.Some?;
    }

    method GenerateReminders(batch: set<nat>, thresholds: seq<real>, now: int) returns (scanned: nat, notified: nat)
      modifies this
      ensures scanned == CountIf(|old(docs)|, ScannedAt(old(docs), batch, now))
      ensures docs == RemindBatch(old(docs), batch, thresholds, now)
      ensures notified == CountIf(|old(docs)|, AnnouncedAt(old(docs), batch, thresholds, now))
    {
      scanned, notified := 0, 0;
      ghost var was := docs;
      SweepAll(was, batch, thresholds, now);
      for i := 0 to |docs|
        invariant docs == Sweep(was, batch, thresholds, now, i)
        invariant notified == CountIf(i, AnnouncedAt(was, batch, thresholds, now)) && scanned == CountIf(i, ScannedAt(was, batch, now))
      {
        SweepStep(was, batch, thresholds, now, i);
        if i in batch && Scanned(docs[i], now) {
          scanned := scanned + 1;
          var sent := RemindOne(i, thresholds, now);
          if sent { notified := notified + 1; }
        }
      }
    }
  }

  /** The documents once the job has gone through the first `n`. */
  ghost function Sweep(docs: seq<Document>, batch: set<nat>, thresholds: seq<real>, now: int, n: nat): seq<Document> {
    seq(|docs|, i requires 0 <= i < |docs| => if i < n then Handled(docs[i], i, batch, thresholds, now) else docs[i])
  }

  lemma SweepStep(docs: seq<Document>, batch: set<nat>, thresholds: seq<real>, now: int, n: nat)
    requires n < |docs|
    ensures Sweep(docs, batch, thresholds, now, n)[n] == docs[n]
    ensures Sweep(docs, batch, thresholds, now, n + 1) ==
            Sweep(docs, batch, thresholds, now, n)[n := Handled(docs[n], n, batch, thresholds, now)]
    ensures !(n in batch && Scanned(docs[n], now)) ==>
              Handled(docs[n], n, batch, thresholds, now) == docs[n] && !Announced(docs[n], n, batch, thresholds, now)
    ensures n in batch ==>
              && Handled(docs[n], n, batch, thresholds, now) == Reminded(docs[n], thresholds, now)
              && Announced(docs[n], n, batch, thresholds, now) == Announced(docs[n], n, {n}, thresholds, now)
  {
  }

  lemma SweepAll(docs: seq<Document>, batch: set<nat>, thresholds: seq<real>, now: int)
    ensures Sweep(docs, batch, thresholds, now, 0) == docs
    ensures Sweep(docs, batch, thresholds, now, |docs|) == RemindBatch(docs, batch, thresholds, now)
  {
  }

  // ---------------------------------------------------- what each operation does, exactly

  /** A document is expired once its date has passed, expiring while less than 31 days remain, and else valid. */
  lemma StatusExactly(expiry: Option<int>, now: int)
    ensures StatusAt(expiry, now) == Expired <==> expiry.Some? && expiry.value < now
    ensures StatusAt(expiry, now) == Expiring <==> expiry.Some? && now <= expiry.value < now + 31 * DAY
  {
  }

  lemma RenewExactly(d: Document, allowed: bool, expiry: Option<int>, number: Option<string>, now: int)
    ensures Renewed(d, allowed, expiry, number, now).Ok? <==> expiry.Some? && !d.archived && allowed
    ensures Renewed(d, allowed, expiry, number, now).Ok? ==>
              var t := Renewed(d, allowed, expiry, number, now).value;
              && t == d.(expiryDate := expiry, number := t.number, version := d.version + 1, status := t.status, sent := {})
              && t.number == (if number.Some? then number else d.number)
              && (t.status == Expired <==> expiry.value < now) && (t.status == Expiring <==> now <= expiry.value < now + 31 * DAY)
  {
  }

  /** The job adds to the ledgers of live documents of its batch whose date has not passed, and marks them expiring within 30 days. */
  lemma RemindExactly(docs: seq<Document>, batch: set<nat>, thresholds: seq<real>, now: int, i: nat, days: int)
    requires i < |docs| && (docs[i].expiryDate.Some? ==> (days - 1) * DAY < docs[i].expiryDate.value - now <= days * DAY)
    ensures |RemindBatch(docs, batch, thresholds, now)| == |docs|
    ensures var d, t := docs[i], RemindBatch(docs, batch, thresholds, now)[i];
            && t == d.(sent := t.sent, status := t.status)
            && t.status == (if t.sent != d.sent && days <= 30 then Expiring else d.status)
            && forall x :: x in t.sent <==>
                 (x in d.sent || (i in batch && !d.archived && d.expiryDate.Some? && now <= d.expiryDate.value && x in thresholds && x >= days as real))
  {
    var d := docs[i];
    JobExactly(LedgerOf(d), thresholds, now, Scanned(d, now), days);
    FiringAdds(LedgerOf(d), thresholds, now, Scanned(d, now));
    if d.expiryDate.Some? { DaysLeftExactly(d.expiryDate.value, now, days); }
  }

  /** Notified are the owners of the documents whose ledger grew; scanned are the live documents of the batch not past their date. */
  lemma RemindersCounted(docs: seq<Document>, batch: set<nat>, thresholds: seq<real>, now: int)
    ensures CountIf(|docs|, AnnouncedAt(docs, batch, thresholds, now)) ==
              |set i: nat | i < |docs| && docs[i].owner.Some? && RemindBatch(docs, batch, thresholds, now)[i].sent != docs[i].sent|
    ensures CountIf(|docs|, ScannedAt(docs, batch, now)) ==
              |set i: nat | i < |docs| && i in batch && !docs[i].archived && docs[i].expiryDate.Some? && now <= docs[i].expiryDate.value|
  {
    CountIfIsSize(|docs|, AnnouncedAt(docs, batch, thresholds, now));
    CountIfIsSize(|docs|, ScannedAt(docs, batch, now));
    forall i: nat | i < |docs|
      ensures Announced(docs[i], i, batch, thresholds, now) <==>
                docs[i].owner.Some? && Handled(docs[i], i, batch, thresholds, now).sent != docs[i].sent
    {
      FiringAdds(LedgerOf(docs[i]), thresholds, now, Scanned(docs[i], now));
    }
    assert Satisfying(|docs|, AnnouncedAt(docs, batch, thresholds, now)) ==
           set i: nat | i < |docs| && docs[i].owner.Some? && RemindBatch(docs, batch, thresholds, now)[i].sent != docs[i].sent;
    assert Satisfying(|docs|, ScannedAt(docs, batch, now)) ==
           set i: nat | i < |docs| && i in batch && !docs[i].archived && docs[i].expiryDate.Some? && now <= docs[i].expiryDate.value;
  }

  // ------------------------------------------------------------------------- runs

  datatype DocOp =
    | RenewDoc(i: nat, now: int, allowed: bool, expiry: Option<int>, number: Option<string>)
    | RemindDocs(now: int, batch: set<nat>)

  function ApplyAll(docs: seq<Document>, op: DocOp, thresholds: seq<real>): seq<Document> {
    match op
    case RenewDoc(i, now, allowed, expiry, number) =>
      if i < |docs| then docs[i := After(docs[i], Renewed(docs[i], allowed, expiry, number, now))] else docs
    case RemindDocs(now, batch) => RemindBatch(docs, batch, thresholds, now)
  }

  function RunAll(docs: seq<Document>, ops: seq<DocOp>, thresholds: seq<real>): seq<Document>
    decreases |ops|
  {
    if ops == [] then docs else RunAll(ApplyAll(docs, ops[0], thresholds), ops[1..], thresholds)
  }

  predicate ForwardOps(clock: int, ops: seq<DocOp>)
    decreases |ops|
  {
    ops == [] || (clock <= ops[0].now && ForwardOps(ops[0].now, ops[1..]))
  }

  /** What a store operation means for the ledger of document `k`. */
  function SeenBy(docs: seq<Document>, k: nat, op: DocOp): Op
    requires k < |docs|
  {
    match op
    case RemindDocs(now, batch) => RunJob(now, k in batch && Scanned(docs[k], now))
    case RenewDoc(i, now, allowed, expiry, number) =>
      if i == k && Renewed(docs[k], allowed, expiry, number, now).Ok? then SetDate(now, expiry) else RunJob(now, false)
  }

  function Track(docs: seq<Document>, k: nat, t: Tracked, ops: seq<DocOp>, thresholds: seq<real>): Tracked
    requires k < |docs|
    decreases |ops|
  {
    if ops == [] then t
    else Track(ApplyAll(docs, ops[0], thresholds), k, Step(t, SeenBy(docs, k, ops[0]), thresholds), ops[1..], thresholds)
  }

  lemma LedgerRefines(docs: seq<Document>, k: nat, t: Tracked, op: DocOp, thresholds: seq<real>)
    requires k < |docs| && t.ledger == LedgerOf(docs[k])
    ensures |ApplyAll(docs, op, thresholds)| == |docs|
    ensures LedgerOf(ApplyAll(docs, op, thresholds)[k]) == Step(t, SeenBy(docs, k, op), thresholds).ledger
  {
  }

  /** Over any run of renewals and expiry jobs at non-decreasing times every document's ledger is exact. */
  lemma {:induction false} StoreLedgersAreExact(
      docs: seq<Document>, k: nat, t: Tracked, ops: seq<DocOp>, thresholds: seq<real>)
    requires k < |docs| && t.ledger == LedgerOf(docs[k]) && Inv(t, thresholds) && ForwardOps(t.clock, ops)
    ensures k < |RunAll(docs, ops, thresholds)|
    ensures var end := Track(docs, k, t, ops, thresholds);
            && LedgerOf(RunAll(docs, ops, thresholds)[k]) == end.ledger
            && Inv(end, thresholds) && end.rounds <= |ToSet(thresholds)|
    decreases |ops|
  {
    if ops == [] {
      LedgerIsExact(t, [], thresholds);
    } else {
      LedgerRefines(docs, k, t, ops[0], thresholds);
      StepKeepsInv(t, SeenBy(docs, k, ops[0]), thresholds);
      StoreLedgersAreExact(ApplyAll(docs, ops[0], thresholds), k, Step(t, SeenBy(docs, k, ops[0]), thresholds), ops[1..], thresholds);
    }
  }
}
