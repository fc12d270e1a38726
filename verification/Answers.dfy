/** The approved-answer library (src/domain/answers.ts): draft, pending, approved, retired. */
module Answers {
  import opened Common
  import opened History

  datatype Error = Invalid | NotFound | Forbidden | NoDraft | DraftExists | EmptyAnswer | NoPending

  /** An answer identity with its versions; `current` is a row position in `versions`. */
  datatype Answer = Answer(
    question: string, status: Status, text: string, version: nat, current: nat, archived: bool,
    versions: seq<Version<string>>)

  // ------------------------------------------------------- the service functions

  function Created(allowed: bool, question: string, text: string): Result<Answer, Error> {
    var q, t := Parsed(question, 500), Parsed(text, 20000);
    if q.None? || t.None? then Err(Invalid)
    else if !allowed then Err(Forbidden)
    else Ok(Answer(q.value, Draft, "", 1, 0, false, [Version(1, Draft, t.value)]))
  }

  function Editable(a: Answer, allowed: bool): Option<Error> {
    if a.archived then Some(NotFound) else if !allowed then Some(Forbidden) else None
  }

  function DraftUpdated(a: Answer, allowed: bool, question: Option<string>, text: Option<string>): Result<Answer, Error> {
    var refusal := Editable(a, allowed);
    if refusal.Some? then Err(refusal.value)
    else if question.Some? && Parsed(question.value, 500).None? then Err(Invalid)
    else if text.Some? && Parsed(text.value, 20000).None? then Err(Invalid)
    else match Latest(a.versions, {Draft})
      case None => Err(NoDraft)
      case Some(i) =>
        var vs := if text.None? then a.versions
                  else a.versions[i := a.versions[i].(content := Parsed(text.value, 20000).value)];
        var q := if question.None? then a.question else Parsed(question.value, 500).value;
        Ok(a.(versions := vs, question := q))
  }

  function RevisionCreated(a: Answer, allowed: bool, text: string): Result<Answer, Error> {
    var refusal := Editable(a, allowed);
    if refusal.Some? then Err(refusal.value)
    else if Latest(a.versions, {Draft, Review}).Some? then Err(DraftExists)
    else Ok(a.(versions := Opened(a.versions, text)))
  }

  function Submitted(a: Answer, allowed: bool): Result<Answer, Error> {
    var refusal := Editable(a, allowed);
    if refusal.Some? then Err(refusal.value)
    else match Latest(a.versions, {Draft})
      case None => Err(NoDraft)
      case Some(i) =>
        if Trim(a.versions[i].content) == "" then Err(EmptyAnswer)
        else Ok(a.(versions := a.versions[i := a.versions[i].(status := Review)],
                   status := if a.status == Current then Current else Review))
  }

  function Approved(a: Answer, allowed: bool): Result<Answer, Error> {
    var refusal := Editable(a, allowed);
    if refusal.Some? then Err(refusal.value)
    else match Latest(a.versions, {Review})
      case None => Err(NoPending)
      case Some(i) =>
        var v := a.versions[i];
        Ok(a.(versions := Promoted(a.versions, i), status := Current, text := v.content, version := v.number, current := i))
  }

  function Withdrawn(a: Answer, allowed: bool): Result<Answer, Error> {
    var refusal := Editable(a, allowed);
    if refusal.Some? then Err(refusal.value)
    else Ok(a.(status := Past, versions := Retired(a.versions)))
  }

  // --------------------------------------------------------------- the record itself

  class AnswerRecord {
    var question: string
    var status: Status
    var text: string
    var version: nat
    var current: nat
    var archived: bool
    var versions: seq<Version<string>>

    function State(): Answer
      reads this
    {
      Answer(question, status, text, version, current, archived, versions)
    }

    constructor (a: Answer)
      ensures State() == a
    {
      question, status, text, version := a.question, a.status, a.text, a.version;
      current, archived, versions := a.current, a.archived, a.versions;
    }

    method UpdateDraft(allowed: bool, newQuestion: Option<string>, newText: Option<string>) returns (error: Option<Error>)
      modifies this
      ensures State() == After(old(State()), DraftUpdated(old(State()), allowed, newQuestion, newText))
      ensures error == ErrorOf(DraftUpdated(old(State()), allowed, newQuestion, newText))
    {
      if archived { return Some(NotFound); }
      if !allowed { return Some(Forbidden); }
      if newQuestion.Some? && Parsed(newQuestion.value, 500).None? { return Some(Invalid); }
      if newText.Some? && Parsed(newText.value, 20000).None? { return Some(Invalid); }
      var draft := Latest(versions, {Draft});
      if draft.None? { return Some(NoDraft); }
      if newText.Some? {
        versions := versions[draft.value := versions[draft.value].(content := Parsed(newText.value, 20000).value)];
      }
      if newQuestion.Some? { question := Parsed(newQuestion.value, 500).value; }
      return None;
    }

    method CreateRevision(allowed: bool, newText: string) returns (error: Option<Error>)
      modifies this
      ensures State() == After(old(State()), RevisionCreated(old(State()), allowed, newText))
      ensures error == ErrorOf(RevisionCreated(old(State()), allowed, newText))
    {
      if archived { return Some(NotFound); }
      if !allowed { return Some(Forbidden); }
      if Latest(versions, {Draft, Review}).Some? { return Some(DraftExists); }
      versions := versions + [Version(MaxNumber(versions) + 1, Draft, newText)];
      return None;
    }

    method SubmitForApproval(allowed: bool) returns (error: Option<Error>)
      modifies this
      ensures State() == After(old(State()), Submitted(old(State()), allowed))
      ensures error == ErrorOf(Submitted(old(State()), allowed))
    {
      if archived { return Some(NotFound); }
      if !allowed { return Some(Forbidden); }
      var draft := Latest(versions, {Draft});
      if draft.None? { return Some(NoDraft); }
      if Trim(versions[draft.value].content) == "" { return Some(EmptyAnswer); }
      versions := versions[draft.value := versions[draft.value].(status := Review)];
      if status != Current { status := Review; }
      return None;
    }

    method Approve(allowed: bool) returns (error: Option<Error>)
      modifies this
      ensures State() == After(old(State()), Approved(old(State()), allowed))
      ensures error == ErrorOf(Approved(old(State()), allowed))
    {
      if archived { return Some(NotFound); }
      if !allowed { return Some(Forbidden); }
      var pending := Latest(versions, {Review});
      if pending.None? { return Some(NoPending); }
      var v := versions[pending.value];
      versions := Retired(versions);
      versions := versions[pending.value := v.(status := Current)];
      status, text, version, current := Current, v.content, v.number, pending.value;
      return None;
    }

    method Retire(allowed: bool) returns (error: Option<Error>)
      modifies this
      ensures State() == After(old(State()), Withdrawn(old(State()), allowed))
      ensures error == ErrorOf(Withdrawn(old(State()), allowed))
    {
      if archived { return Some(NotFound); }
      if !allowed { return Some(Forbidden); }
      status := Past;
      versions := Retired(versions);
      return None;
    }
  }

  // ------------------------------------------------------------------------- runs

  datatype Op =
    | Update(allowed: bool, question: Option<string>, text: Option<string>)
    | Revise(allowed: bool, newText: string)
    | Submit(allowed: bool)
    | Approve(allowed: bool)
    | Retire(allowed: bool)

  function Perform(a: Answer, op: Op): Result<Answer, Error> {
    match op
    case Update(allowed, question, text) => DraftUpdated(a, allowed, question, text)
    case Revise(allowed, newText) => RevisionCreated(a, allowed, newText)
    case Submit(allowed) => Submitted(a, allowed)
    case Approve(allowed) => Approved(a, allowed)
    case Retire(allowed) => Withdrawn(a, allowed)
  }

  function Run(a: Answer, ops: seq<Op>): Answer
    decreases |ops|
  {
    if ops == [] then a else Run(After(a, Perform(a, ops[0])), ops[1..])
  }

  /**
   * Versions are numbered 1..n with statuses `retired* approved? (draft|pending)?`; the
   * identity is approved exactly when a version is, and then shows that version; and it
   * never shows a text that was not approved.
   */
  predicate Inv(a: Answer) {
    && Good(a.versions)
    && (a.status == Current <==> exists i :: 0 <= i < |a.versions| && a.versions[i].status == Current)
    && (forall i :: 0 <= i < |a.versions| && a.versions[i].status == Current ==>
          a.current == i && a.version == a.versions[i].number && a.text == a.versions[i].content)
    && (a.text != "" ==> a.current < |a.versions| && a.versions[a.current].status in {Past, Current}
                         && a.versions[a.current].content == a.text)
  }

  lemma UpdateKeepsInv(a: Answer, allowed: bool, question: Option<string>, text: Option<string>)
    requires Inv(a) && DraftUpdated(a, allowed, question, text).Ok?
    ensures Inv(DraftUpdated(a, allowed, question, text).value)
  {
    var i := Latest(a.versions, {Draft}).value;
    OpenIsLast(a.versions, i);
    var vs := DraftUpdated(a, allowed, question, text).value.versions;
    assert vs[i].status == a.versions[i].status && vs[i].number == a.versions[i].number;
    assert forall j :: 0 <= j < |vs| && j != i ==> vs[j] == a.versions[j];
  }

  lemma RevisionKeepsInv(a: Answer, allowed: bool, text: string)
    requires Inv(a) && RevisionCreated(a, allowed, text).Ok?
    ensures Inv(RevisionCreated(a, allowed, text).value)
  {
    OpenedGood(a.versions, text);
    var vs := RevisionCreated(a, allowed, text).value.versions;
    assert forall i :: 0 <= i < |a.versions| ==> vs[i] == a.versions[i];
  }

  lemma SubmitKeepsInv(a: Answer, allowed: bool)
    requires Inv(a) && Submitted(a, allowed).Ok?
    ensures Inv(Submitted(a, allowed).value)
  {
    var i := Latest(a.versions, {Draft}).value;
    OpenIsLast(a.versions, i);
    var vs := Submitted(a, allowed).value.versions;
    assert forall j :: 0 <= j < |vs| && j != i ==> vs[j] == a.versions[j];
  }

  lemma ApproveKeepsInv(a: Answer, allowed: bool)
    requires Inv(a) && Approved(a, allowed).Ok?
    ensures Inv(Approved(a, allowed).value)
  {
    var i := Latest(a.versions, {Review}).value;
    PromotedGood(a.versions, i);
    assert Approved(a, allowed).value.versions[i].status == Current;
  }

  lemma StepKeepsInv(a: Answer, op: Op)
    requires Inv(a)
    ensures Inv(After(a, Perform(a, op)))
  {
    if Perform(a, op).Ok? {
      match op
      case Update(allowed, question, text) => UpdateKeepsInv(a, allowed, question, text);
      case Revise(allowed, newText) => RevisionKeepsInv(a, allowed, newText);
      case Submit(allowed) => SubmitKeepsInv(a, allowed);
      case Approve(allowed) => ApproveKeepsInv(a, allowed);
      case Retire(allowed) => RetiredGood(a.versions);
    }
  }

  lemma {:induction false} RunKeepsInv(a: Answer, ops: seq<Op>)
    requires Inv(a)
    ensures Inv(Run(a, ops))
    decreases |ops|
  {
    if ops != [] {
      StepKeepsInv(a, ops[0]);
      RunKeepsInv(After(a, Perform(a, ops[0])), ops[1..]);
    }
  }

  /** In every reachable store an answer has one current version, and shows it. */
  lemma OneCurrentVersion(allowed: bool, question: string, text: string, ops: seq<Op>)
    requires Created(allowed, question, text).Ok?
    ensures Inv(Run(Created(allowed, question, text).value, ops))
  {
    RunKeepsInv(Created(allowed, question, text).value, ops);
  }

  lemma StepKeepsText(a: Answer, op: Op)
    requires Inv(a)
    ensures Kept(a.versions, After(a, Perform(a, op)).versions, {Draft})
  {
    if Perform(a, op).Ok? {
      match op
      case Update(_, _, text) =>
        if text.Some? { ReplacedKeeps(a.versions, Latest(a.versions, {Draft}).value, Perform(a, op).value.versions, {Draft}); }
      case Revise(_, newText) => OpenedKeeps(a.versions, newText, {Draft});
      case Submit(_) => ReplacedKeeps(a.versions, Latest(a.versions, {Draft}).value, Perform(a, op).value.versions, {Draft});
      case Approve(_) => PromotedKeeps(a.versions, Latest(a.versions, {Review}).value, {Draft});
      case Retire(_) => RetiredKeeps(a.versions, {Draft});
    }
  }

  /** From its submission on, the text of a version never changes, over any run. */
  lemma {:induction false} SubmittedTextIsImmutable(a: Answer, ops: seq<Op>)
    requires Inv(a)
    ensures Kept(a.versions, Run(a, ops).versions, {Draft})
    decreases |ops|
  {
    if ops != [] {
      var b := After(a, Perform(a, ops[0]));
      StepKeepsInv(a, ops[0]);
      StepKeepsText(a, ops[0]);
      SubmittedTextIsImmutable(b, ops[1..]);
    }
  }

  // ------------------------------------------------------ the question is not versioned

  /** An accepted edit that gives a different question. */
  predicate Rewords(a: Answer, op: Op) {
    && op.Update? && Perform(a, op).Ok? && op.question.Some?
    && Parsed(op.question.value, 500) != Some(a.question)
  }

  /** The question changes in exactly one way; no other field of the identity changes with it. */
  lemma QuestionChangesExactly(a: Answer, op: Op)
    ensures var b := After(a, Perform(a, op));
            && (b.question != a.question <==> Rewords(a, op))
            && (op.Update? ==> b == a.(question := b.question, versions := b.versions))
  {
  }

  predicate NeverRewords(a: Answer, ops: seq<Op>)
    decreases |ops|
  {
    ops == [] || (!Rewords(a, ops[0]) && NeverRewords(After(a, Perform(a, ops[0])), ops[1..]))
  }

  /** Over every run without such an edit the question stays. */
  lemma {:induction false} QuestionStays(a: Answer, ops: seq<Op>)
    requires NeverRewords(a, ops)
    ensures Run(a, ops).question == a.question
    decreases |ops|
  {
    if ops != [] {
      QuestionChangesExactly(a, ops[0]);
      QuestionStays(After(a, Perform(a, ops[0])), ops[1..]);
    }
  }

  /**
   * The question shown with an approved answer can be changed, to anything the input accepts and
   * without another approval, exactly while a draft is open.
   */
  lemma ApprovedQuestionCanChange(a: Answer, question: string)
    requires Inv(a) && a.status == Current && !a.archived && Parsed(question, 500).Some?
    requires Parsed(question, 500).value != a.question
    ensures var b := After(a, Perform(a, Update(true, Some(question), None)));
            && (b == a.(question := Parsed(question, 500).value) <==> Latest(a.versions, {Draft}).Some?)
            && (b == a <==> Latest(a.versions, {Draft}).None?)
  {
  }

  // ---------------------------------------------------- what each operation does, exactly

  predicate Editing(a: Answer, allowed: bool) {
    !a.archived && allowed
  }

  lemma CreateExactly(allowed: bool, question: string, text: string)
    ensures Created(allowed, question, text).Ok? <==> allowed && AllAccepted(Some(question), 500) && AllAccepted(Some(text), 20000)
    ensures Created(allowed, question, text).Ok? ==>
              var a := Created(allowed, question, text).value;
              && Accepts(question, 500, a.question) && a.status == Draft && a.text == "" && a.version == 1 && !a.archived
              && a.current == 0 && |a.versions| == 1 && a.versions[0].number == 1 && a.versions[0].status == Draft
              && Accepts(text, 20000, a.versions[0].content)
  {
    AcceptedIsParsed(Some(question), 500);
    AcceptedIsParsed(Some(text), 20000);
    if Created(allowed, question, text).Ok? {
      ParsedExactly(question, 500, Created(allowed, question, text).value.question);
      ParsedExactly(text, 20000, Created(allowed, question, text).value.versions[0].content);
    }
  }

  /** An edit is accepted exactly while the last version is a draft; it touches the question and that draft's text. */
  lemma UpdateExactly(a: Answer, allowed: bool, question: Option<string>, text: Option<string>)
    requires Inv(a)
    ensures DraftUpdated(a, allowed, question, text).Ok? <==>
              Editing(a, allowed) && AllAccepted(question, 500) && AllAccepted(text, 20000) && LastIn(a.versions, {Draft})
    ensures DraftUpdated(a, allowed, question, text).Ok? ==>
              var b := DraftUpdated(a, allowed, question, text).value;
              && b == a.(question := b.question, versions := b.versions) && Took(question, 500, a.question, b.question)
              && OnlyVersion(a.versions, b.versions, |a.versions| - 1) && Last(b.versions).status == Draft
              && Took(text, 20000, Last(a.versions).content, Last(b.versions).content)
  {
    OpenIsFound(a.versions, {Draft});
    AcceptedIsParsed(question, 500);
    AcceptedIsParsed(text, 20000);
    if DraftUpdated(a, allowed, question, text).Ok? {
      var b := DraftUpdated(a, allowed, question, text).value;
      if question.Some? { ParsedExactly(question.value, 500, b.question); }
      if text.Some? { ParsedExactly(text.value, 20000, Last(b.versions).content); }
    }
  }

  lemma ReviseExactly(a: Answer, allowed: bool, text: string)
    requires Inv(a)
    ensures RevisionCreated(a, allowed, text).Ok? <==> Editing(a, allowed) && !LastIn(a.versions, {Draft, Review})
    ensures RevisionCreated(a, allowed, text).Ok? ==>
              var b := RevisionCreated(a, allowed, text).value;
              b == a.(versions := b.versions) && OneMoreDraft(a.versions, b.versions, text)
  {
    OpenIsFound(a.versions, {Draft, Review});
    DenseMax(a.versions);
  }

  /** Only a draft with something written in it is submitted; an approved answer goes on showing as approved. */
  lemma SubmitExactly(a: Answer, allowed: bool)
    requires Inv(a)
    ensures Submitted(a, allowed).Ok? <==> Editing(a, allowed) && LastIn(a.versions, {Draft}) && Written(Last(a.versions).content)
    ensures Submitted(a, allowed).Ok? ==>
              var b := Submitted(a, allowed).value;
              && b == a.(status := if a.status == Current then Current else Review, versions := b.versions)
              && OnlyVersion(a.versions, b.versions, |a.versions| - 1)
              && Last(b.versions).status == Review && Last(b.versions).content == Last(a.versions).content
  {
    OpenIsFound(a.versions, {Draft});
    if a.versions != [] { TrimExactly(Last(a.versions).content); }
  }

  /** Only a pending version is approved; it comes into force and is shown, and the one before it is retired. */
  lemma ApproveExactly(a: Answer, allowed: bool)
    requires Inv(a)
    ensures Approved(a, allowed).Ok? <==> Editing(a, allowed) && LastIn(a.versions, {Review})
    ensures Approved(a, allowed).Ok? ==>
              var b := Approved(a, allowed).value;
              && PutInForce(a.versions, b.versions, |a.versions| - 1) && b.status == Current
              && b.text == Last(a.versions).content && b.version == Last(a.versions).number && b.current == |a.versions| - 1
              && b.question == a.question && !b.archived
  {
    OpenIsFound(a.versions, {Review});
  }

  lemma RetireExactly(a: Answer, allowed: bool)
    ensures Withdrawn(a, allowed).Ok? <==> Editing(a, allowed)
    ensures Withdrawn(a, allowed).Ok? ==>
              var b := Withdrawn(a, allowed).value;
              b == a.(status := Past, versions := b.versions) && NoneInForce(a.versions, b.versions)
  {
  }
}
