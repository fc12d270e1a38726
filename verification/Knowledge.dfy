/** Knowledge articles (src/domain/knowledge.ts): draft, in review, published, superseded. */
module Knowledge {
  import opened Common
  import opened History

  datatype Error = Invalid | NotFound | Forbidden | NoDraft | DraftExists | NoReview

  datatype Text = Text(title: string, body: string)

  /** `status` Past stands for archived; `current` is a row position in `versions`. */
  datatype Article = Article(
    status: Status, title: string, body: string, version: nat, current: nat, archived: bool,
    versions: seq<Version<Text>>)

  predicate Rejected(raw: Option<string>, max: nat) {
    raw.Some? && Parsed(raw.value, max).None?
  }

  function Given(raw: Option<string>, max: nat, otherwise: string): string {
    if raw.Some? then Parsed(raw.value, max).GetOr(otherwise) else otherwise
  }

  // ------------------------------------------------------- the service functions

  function Created(allowed: bool, title: string, body: string): Result<Article, Error> {
    var t, b := Parsed(title, 200), Parsed(body, 100000);
    if t.None? || b.None? then Err(Invalid)
    else if !allowed then Err(Forbidden)
    else Ok(Article(Draft, t.value, "", 1, 0, false, [Version(1, Draft, Text(t.value, b.value))]))
  }

  function Refusal(k: Article, allowed: bool): Option<Error> {
    if k.archived then Some(NotFound) else if !allowed then Some(Forbidden) else None
  }

  /** An article can still be edited while it is in review. */
  function DraftUpdated(k: Article, allowed: bool, title: Option<string>, body: Option<string>): Result<Article, Error> {
    if Refusal(k, allowed).Some? then Err(Refusal(k, allowed).value)
    else if Rejected(title, 200) || Rejected(body, 100000) then Err(Invalid)
    else match Latest(k.versions, {Draft, Review})
      case None => Err(NoDraft)
      case Some(i) =>
        var was := k.versions[i].content;
        var text := Text(Given(title, 200, was.title), Given(body, 100000, was.body));
        Ok(k.(versions := k.versions[i := k.versions[i].(content := text)], title := Given(title, 200, k.title)))
  }

  function Submitted(k: Article, allowed: bool): Result<Article, Error> {
    if Refusal(k, allowed).Some? then Err(Refusal(k, allowed).value)
    else match Latest(k.versions, {Draft})
      case None => Err(NoDraft)
      case Some(i) =>
        Ok(k.(versions := k.versions[i := k.versions[i].(status := Review)],
              status := if k.status == Current then Current else Review))
  }

  function Published(k: Article, allowed: bool): Result<Article, Error> {
    if Refusal(k, allowed).Some? then Err(Refusal(k, allowed).value)
    else match Latest(k.versions, {Review})
      case None => Err(NoReview)
      case Some(i) =>
        var v := k.versions[i];
        Ok(k.(versions := Promoted(k.versions, i), status := Current, title := v.content.title, body := v.content.body,
              version := v.number, current := i))
  }

  function RevisionCreated(k: Article, allowed: bool, body: string, title: Option<string>): Result<Article, Error> {
    if Refusal(k, allowed).Some? then Err(Refusal(k, allowed).value)
    else if Latest(k.versions, {Draft, Review}).Some? then Err(DraftExists)
    else Ok(k.(versions := Opened(k.versions, Text(title.GetOr(k.title), body))))
  }

  function Archived(k: Article, allowed: bool): Result<Article, Error> {
    if Refusal(k, allowed).Some? then Err(Refusal(k, allowed).value)
    else Ok(k.(status := Past, archived := true))
  }

  // --------------------------------------------------------------- the record itself

  class ArticleRecord {
    var status: Status
    var title: string
    var body: string
    var version: nat
    var current: nat
    var archived: bool
    var versions: seq<Version<Text>>

    function State(): Article
      reads this
    {
      Article(status, title, body, version, current, archived, versions)
    }

    constructor (k: Article)
      ensures State() == k
    {
      status, title, body, version := k.status, k.title, k.body, k.version;
      current, archived, versions := k.current, k.archived, k.versions;
    }

    method UpdateDraft(allowed: bool, newTitle: Option<string>, newBody: Option<string>) returns (error: Option<Error>)
      modifies this
      ensures State() == After(old(State()), DraftUpdated(old(State()), allowed, newTitle, newBody))
      ensures error == ErrorOf(DraftUpdated(old(State()), allowed, newTitle, newBody))
    {
      if archived { return Some(NotFound); }
      if !allowed { return Some(Forbidden); }
      if Rejected(newTitle, 200) || Rejected(newBody, 100000) { return Some(Invalid); }
      var draft := Latest(versions, {Draft, Review});
      if draft.None? { return Some(NoDraft); }
      var text := versions[draft.value].content;
      if newTitle.Some? { text := text.(title := Parsed(newTitle.value, 200).value); }
      if newBody.Some? { text := text.(body := Parsed(newBody.value, 100000).value); }
      versions := versions[draft.value := versions[draft.value].(content := text)];
      if newTitle.Some? { title := Parsed(newTitle.value, 200).value; }
      return None;
    }

    method SubmitForReview(allowed: bool) returns (error: Option<Error>)
      modifies this
      ensures State() == After(old(State()), Submitted(old(State()), allowed))
      ensures error == ErrorOf(Submitted(old(State()), allowed))
    {
      if archived { return Some(NotFound); }
      if !allowed { return Some(Forbidden); }
      var draft := Latest(versions, {Draft});
      if draft.None? { return Some(NoDraft); }
      versions := versions[draft.value := versions[draft.value].(status := Review)];
      if status != Current { status := Review; }
      return None;
    }

    method Publish(allowed: bool) returns (error: Option<Error>)
      modifies this
      ensures State() == After(old(State()), Published(old(State()), allowed))
      ensures error == ErrorOf(Published(old(State()), allowed))
    {
      if archived { return Some(NotFound); }
      if !allowed { return Some(Forbidden); }
      var review := Latest(versions, {Review});
      if review.None? { return Some(NoReview); }
      var v := versions[review.value];
      versions := Retired(versions);
      versions := versions[review.value := v.(status := Current)];
      status, title, body, version, current := Current, v.content.title, v.content.body, v.number, review.value;
      return None;
    }

    method CreateRevision(allowed: bool, newBody: string, newTitle: Option<string>) returns (error: Option<Error>)
      modifies this
      ensures State() == After(old(State()), RevisionCreated(old(State()), allowed, newBody, newTitle))
      ensures error == ErrorOf(RevisionCreated(old(State()), allowed, newBody, newTitle))
    {
      if archived { return Some(NotFound); }
      if !allowed { return Some(Forbidden); }
      if Latest(versions, {Draft, Review}).Some? { return Some(DraftExists); }
      versions := versions + [Version(MaxNumber(versions) + 1, Draft, Text(newTitle.GetOr(title), newBody))];
      return None;
    }

    method Archive(allowed: bool) returns (error: Option<Error>)
      modifies this
      ensures State() == After(old(State()), Archived(old(State()), allowed))
      ensures error == ErrorOf(Archived(old(State()), allowed))
    {
      if archived { return Some(NotFound); }
      if !allowed { return Some(Forbidden); }
      status, archived := Past, true;
      return None;
    }
  }

  // ------------------------------------------------------------------------- runs

  datatype Op =
    | Update(allowed: bool, newTitle: Option<string>, newBody: Option<string>)
    | Submit(allowed: bool)
    | Publish(allowed: bool)
    | Revise(allowed: bool, text: string, newTitle: Option<string>)
    | Archive(allowed: bool)

  function Perform(k: Article, op: Op): Result<Article, Error> {
    match op
    case Update(allowed, title, body) => DraftUpdated(k, allowed, title, body)
    case Submit(allowed) => Submitted(k, allowed)
    case Publish(allowed) => Published(k, allowed)
    case Revise(allowed, text, title) => RevisionCreated(k, allowed, text, title)
    case Archive(allowed) => Archived(k, allowed)
  }

  function Run(k: Article, ops: seq<Op>): Article
    decreases |ops|
  {
    if ops == [] then k else Run(After(k, Perform(k, ops[0])), ops[1..])
  }

  /**
   * Versions are numbered 1..n with statuses `superseded* published? (draft|in_review)?`; an
   * article that is not archived is published exactly when a version is; the article's body,
   * version and current version are those of the published version.
   */
  predicate Inv(k: Article) {
    && Good(k.versions)
    && (!k.archived ==> (k.status == Current <==> exists i :: 0 <= i < |k.versions| && k.versions[i].status == Current))
    && (forall i :: 0 <= i < |k.versions| && k.versions[i].status == Current ==>
          k.current == i && k.version == k.versions[i].number && k.body == k.versions[i].content.body)
  }

  lemma UpdateKeepsInv(k: Article, allowed: bool, title: Option<string>, body: Option<string>)
    requires Inv(k) && DraftUpdated(k, allowed, title, body).Ok?
    ensures Inv(DraftUpdated(k, allowed, title, body).value)
  {
    var i := Latest(k.versions, {Draft, Review}).value;
    OpenIsLast(k.versions, i);
    var vs := DraftUpdated(k, allowed, title, body).value.versions;
    assert vs[i].status == k.versions[i].status && vs[i].number == k.versions[i].number;
    assert forall j :: 0 <= j < |vs| && j != i ==> vs[j] == k.versions[j];
  }

  lemma SubmitKeepsInv(k: Article, allowed: bool)
    requires Inv(k) && Submitted(k, allowed).Ok?
    ensures Inv(Submitted(k, allowed).value)
  {
    var i := Latest(k.versions, {Draft}).value;
    OpenIsLast(k.versions, i);
    var vs := Submitted(k, allowed).value.versions;
    assert forall j :: 0 <= j < |vs| && j != i ==> vs[j] == k.versions[j];
  }

  lemma PublishKeepsInv(k: Article, allowed: bool)
    requires Inv(k) && Published(k, allowed).Ok?
    ensures Inv(Published(k, allowed).value) && TitleAgrees(Published(k, allowed).value)
  {
    var i := Latest(k.versions, {Review}).value;
    PromotedGood(k.versions, i);
    assert Published(k, allowed).value.versions[i].status == Current;
  }

  lemma RevisionKeepsInv(k: Article, allowed: bool, body: string, title: Option<string>)
    requires Inv(k) && RevisionCreated(k, allowed, body, title).Ok?
    ensures Inv(RevisionCreated(k, allowed, body, title).value)
  {
    OpenedGood(k.versions, Text(title.GetOr(k.title), body));
    var vs := RevisionCreated(k, allowed, body, title).value.versions;
    assert forall i :: 0 <= i < |k.versions| ==> vs[i] == k.versions[i];
  }

  lemma StepKeepsInv(k: Article, op: Op)
    requires Inv(k)
    ensures Inv(After(k, Perform(k, op)))
  {
    if Perform(k, op).Ok? {
      match op
      case Update(allowed, title, body) => UpdateKeepsInv(k, allowed, title, body);
      case Submit(allowed) => SubmitKeepsInv(k, allowed);
      case Publish(allowed) => PublishKeepsInv(k, allowed);
      case Revise(allowed, text, title) => RevisionKeepsInv(k, allowed, text, title);
      case Archive(allowed) =>
    }
  }

  lemma {:induction false} RunKeepsInv(k: Article, ops: seq<Op>)
    requires Inv(k)
    ensures Inv(Run(k, ops))
    decreases |ops|
  {
    if ops != [] {
      StepKeepsInv(k, ops[0]);
      RunKeepsInv(After(k, Perform(k, ops[0])), ops[1..]);
    }
  }

  lemma FreshArticle(allowed: bool, title: string, body: string)
    ensures Created(allowed, title, body).Ok? ==>
              Inv(Created(allowed, title, body).value) && TitleAgrees(Created(allowed, title, body).value)
  {
  }

  /** In every reachable store an article has one published version, and shows its body. */
  lemma OneCurrentVersion(allowed: bool, title: string, body: string, ops: seq<Op>)
    requires Created(allowed, title, body).Ok?
    ensures Inv(Run(Created(allowed, title, body).value, ops))
  {
    FreshArticle(allowed, title, body);
    RunKeepsInv(Created(allowed, title, body).value, ops);
  }

  lemma StepKeepsText(k: Article, op: Op)
    requires Inv(k)
    ensures Kept(k.versions, After(k, Perform(k, op)).versions, {Draft, Review})
  {
    var open := {Draft, Review};
    if Perform(k, op).Ok? {
      match op
      case Update(_, _, _) => ReplacedKeeps(k.versions, Latest(k.versions, open).value, Perform(k, op).value.versions, open);
      case Submit(_) => ReplacedKeeps(k.versions, Latest(k.versions, {Draft}).value, Perform(k, op).value.versions, open);
      case Publish(_) => PromotedKeeps(k.versions, Latest(k.versions, {Review}).value, open);
      case Revise(_, text, title) => OpenedKeeps(k.versions, Text(title.GetOr(k.title), text), open);
      case Archive(_) =>
    }
  }

  /** From its publication on, the text of a version never changes, over any run. */
  lemma {:induction false} PublishedTextIsImmutable(k: Article, ops: seq<Op>)
    requires Inv(k)
    ensures Kept(k.versions, Run(k, ops).versions, {Draft, Review})
    decreases |ops|
  {
    if ops != [] {
      StepKeepsInv(k, ops[0]);
      StepKeepsText(k, ops[0]);
      PublishedTextIsImmutable(After(k, Perform(k, ops[0])), ops[1..]);
    }
  }

  /** An archived article is out of reach of every operation. */
  lemma {:induction false} ArchivedForever(k: Article, ops: seq<Op>)
    requires k.archived
    ensures Run(k, ops) == k
    decreases |ops|
  {
    if ops != [] { ArchivedForever(k, ops[1..]); }
  }

  // ------------------------------------------------------------ what does not hold

  predicate TitleAgrees(k: Article) {
    forall i :: 0 <= i < |k.versions| && k.versions[i].status == Current ==> k.title == k.versions[i].content.title
  }

  /** A draft edit that renames the article while another version is published. */
  predicate RenamesPublished(k: Article, op: Op) {
    && op.Update? && op.newTitle.Some? && Perform(k, op).Ok?
    && exists i :: 0 <= i < |k.versions| && k.versions[i].status == Current
                   && k.versions[i].content.title != Given(op.newTitle, 200, k.title)
  }

  /** A published version is never the one an edit or a submission touches. */
  lemma OpenEditTitle(k: Article, k': Article, i: nat)
    requires Inv(k) && i < |k.versions| == |k'.versions| && k.versions[i].status in {Draft, Review}
    requires k'.versions == k.versions[i := k'.versions[i]] && k'.versions[i].status in {Draft, Review}
    ensures forall j :: 0 <= j < |k.versions| && (k.versions[j].status == Current || k'.versions[j].status == Current) ==>
              k'.versions[j] == k.versions[j]
  {
    assert forall j :: 0 <= j < |k.versions| && j != i ==> k'.versions[j] == k.versions[j];
  }

  lemma UpdateTitle(k: Article, allowed: bool, title: Option<string>, body: Option<string>)
    requires Inv(k) && TitleAgrees(k) && DraftUpdated(k, allowed, title, body).Ok?
    ensures TitleAgrees(DraftUpdated(k, allowed, title, body).value) <==> !RenamesPublished(k, Update(allowed, title, body))
  {
    OpenEditTitle(k, DraftUpdated(k, allowed, title, body).value, Latest(k.versions, {Draft, Review}).value);
  }

  lemma SubmitTitle(k: Article, allowed: bool)
    requires Inv(k) && TitleAgrees(k) && Submitted(k, allowed).Ok?
    ensures TitleAgrees(Submitted(k, allowed).value)
  {
    OpenEditTitle(k, Submitted(k, allowed).value, Latest(k.versions, {Draft}).value);
  }

  lemma ReviseTitle(k: Article, allowed: bool, body: string, title: Option<string>)
    requires TitleAgrees(k) && RevisionCreated(k, allowed, body, title).Ok?
    ensures TitleAgrees(RevisionCreated(k, allowed, body, title).value)
  {
    var vs := RevisionCreated(k, allowed, body, title).value.versions;
    assert forall j :: 0 <= j < |k.versions| ==> vs[j] == k.versions[j];
  }

  /**
   * The article's title leaves the published version's title in exactly one way: a draft edit
   * that sets a different title. Every publication brings the two together again.
   */
  lemma TitleDivergesExactly(k: Article, op: Op)
    requires Inv(k)
    ensures TitleAgrees(k) ==> (TitleAgrees(After(k, Perform(k, op))) <==> !RenamesPublished(k, op))
    ensures op.Publish? && Perform(k, op).Ok? ==> TitleAgrees(After(k, Perform(k, op)))
  {
    if Perform(k, op).Ok? {
      if op.Publish? { PublishKeepsInv(k, op.allowed); }
      else if TitleAgrees(k) {
        match op
        case Update(allowed, title, body) => UpdateTitle(k, allowed, title, body);
        case Submit(allowed) => SubmitTitle(k, allowed);
        case Revise(allowed, text, title) => ReviseTitle(k, allowed, text, title);
        case Archive(allowed) =>
      }
    }
  }

  /** No step of the run renames the article while another title is published. */
  predicate NeverRenames(k: Article, ops: seq<Op>)
    decreases |ops|
  {
    ops == [] || (!RenamesPublished(k, ops[0]) && NeverRenames(After(k, Perform(k, ops[0])), ops[1..]))
  }

  /** Over any run without such an edit the article shows the published title. */
  lemma {:induction false} TitleStaysPublished(k: Article, ops: seq<Op>)
    requires Inv(k) && TitleAgrees(k) && NeverRenames(k, ops)
    ensures TitleAgrees(Run(k, ops))
    decreases |ops|
  {
    if ops != [] {
      TitleDivergesExactly(k, ops[0]);
      StepKeepsInv(k, ops[0]);
      TitleStaysPublished(After(k, Perform(k, ops[0])), ops[1..]);
    }
  }

  // ---------------------------------------------------- what is published, and what was submitted

  /** What an edit of version `i` makes of its text. */
  function EditedText(was: Text, title: Option<string>, body: Option<string>): Text {
    Text(Given(title, 200, was.title), Given(body, 100000, was.body))
  }

  /** An accepted edit gives version `i`, under review, another text. */
  predicate Rewrites(k: Article, op: Op, i: nat) {
    && i < |k.versions| && k.versions[i].status == Review
    && op.Update? && Perform(k, op).Ok?
    && EditedText(k.versions[i].content, op.newTitle, op.newBody) != k.versions[i].content
  }

  lemma LatestIsOpen(k: Article, i: nat, want: set<Status>)
    requires Inv(k) && i < |k.versions| && k.versions[i].status in want && want <= {Draft, Review}
    ensures Latest(k.versions, want) == Some(i)
  {
    OpenIsLast(k.versions, i);
    var found := Latest(k.versions, want);
    assert found.Some?;
    OpenIsLast(k.versions, found.value);
  }

  /** The text of a version under review changes in exactly one way: an accepted edit that gives another text. */
  lemma ReviewTextChangesExactly(k: Article, op: Op, i: nat)
    requires Inv(k) && i < |k.versions| && k.versions[i].status == Review
    ensures i < |After(k, Perform(k, op)).versions|
    ensures var v := After(k, Perform(k, op)).versions[i];
            && (v.content != k.versions[i].content <==> Rewrites(k, op, i))
            && (v.status == if op.Publish? && Perform(k, op).Ok? then Current else Review)
  {
    LatestIsOpen(k, i, {Draft, Review});
    LatestIsOpen(k, i, {Review});
    OpenIsLast(k.versions, i);
  }

  /** No step of the run rewrites version `i` while it is under review. */
  predicate NeverRewrites(k: Article, ops: seq<Op>, i: nat)
    decreases |ops|
  {
    ops == [] || (!Rewrites(k, ops[0], i) && NeverRewrites(After(k, Perform(k, ops[0])), ops[1..], i))
  }

  /** A version once under review keeps its text over every run without such an edit, published or not. */
  lemma {:induction false} UneditedKeepsText(k: Article, ops: seq<Op>, i: nat)
    requires Inv(k) && i < |k.versions| && k.versions[i].status == Review && NeverRewrites(k, ops, i)
    ensures i < |Run(k, ops).versions| && Run(k, ops).versions[i].content == k.versions[i].content
    decreases |ops|
  {
    if ops != [] {
      var k' := After(k, Perform(k, ops[0]));
      ReviewTextChangesExactly(k, ops[0], i);
      StepKeepsInv(k, ops[0]);
      if k'.versions[i].status == Review { UneditedKeepsText(k', ops[1..], i); }
      else { PublishedTextIsImmutable(k', ops[1..]); }
    }
  }

  /**
   * From submission to publication: unless an edit in between gives the version another text,
   * the article publishes, as its own title and body, what was submitted.
   */
  lemma SubmittedIsPublished(k: Article, submitter: bool, ops: seq<Op>, publisher: bool)
    requires Inv(k) && Submitted(k, submitter).Ok?
    requires var i := Latest(k.versions, {Draft}).value;
             var sent := Submitted(k, submitter).value;
             && NeverRewrites(sent, ops, i)
             && i < |Run(sent, ops).versions| && Run(sent, ops).versions[i].status == Review
             && Published(Run(sent, ops), publisher).Ok?
    ensures var text := k.versions[Latest(k.versions, {Draft}).value].content;
            var shown := Published(Run(Submitted(k, submitter).value, ops), publisher).value;
            shown.status == Current && shown.title == text.title && shown.body == text.body
  {
    var i := Latest(k.versions, {Draft}).value;
    var sent := Submitted(k, submitter).value;
    SubmitKeepsInv(k, submitter);
    UneditedKeepsText(sent, ops, i);
    RunKeepsInv(sent, ops);
    LatestIsOpen(Run(sent, ops), i, {Review});
  }

  /** The edit between submission and publication is possible: the published body is not the submitted one. */
  lemma ReviewDoesNotFreeze()
    ensures Created(true, "T", "old").Ok?
    ensures var k := Run(Created(true, "T", "old").value, [Submit(true), Update(true, None, Some("new")), Publish(true)]);
            k.status == Current && k.body == "new"
  {
    WordsTrim();
    var k := Article(Draft, "T", "", 1, 0, false, [Version(1, Draft, Text("T", "old"))]);
    assert Created(true, "T", "old") == Ok(k);
    var sent := Article(Review, "T", "", 1, 0, false, [Version(1, Review, Text("T", "old"))]);
    var edited := Article(Review, "T", "", 1, 0, false, [Version(1, Review, Text("T", "new"))]);
    LoneSubmit(k, sent);
    LoneUpdate(sent, edited);
    LonePublish(edited);
    var edit := Update(true, None, Some("new"));
    var ops := [Submit(true), edit, Publish(true)];
    assert ops[1..] == [edit, Publish(true)] && [edit, Publish(true)][1..] == [Publish(true)] && [Publish(true)][1..] == [];
    assert Run(k, ops) == Run(sent, [edit, Publish(true)]) == Run(edited, [Publish(true)]);
  }

  lemma WordsTrim()
    ensures Trim("T") == "T" && Trim("old") == "old" && Trim("new") == "new"
  {
    assert TrimStart("T") == "T" && TrimStart("old") == "old" && TrimStart("new") == "new";
  }

  lemma LoneSubmit(k: Article, sent: Article)
    requires |k.versions| == 1 && k.versions[0].status == Draft && !k.archived && k.status == Draft
    requires sent == k.(status := Review, versions := [k.versions[0].(status := Review)])
    ensures Perform(k, Submit(true)) == Ok(sent)
  {
    assert Latest(k.versions, {Draft}) == Some(0);
    assert k.versions[0 := k.versions[0].(status := Review)] == sent.versions;
  }

  lemma LoneUpdate(k: Article, edited: Article)
    requires |k.versions| == 1 && k.versions[0].status == Review && !k.archived && Trim("new") == "new"
    requires edited == k.(versions := [k.versions[0].(content := Text(k.versions[0].content.title, "new"))])
    ensures Perform(k, Update(true, None, Some("new"))) == Ok(edited)
  {
    assert Latest(k.versions, {Draft, Review}) == Some(0);
    assert Given(Some("new"), 100000, k.versions[0].content.body) == "new" && !Rejected(Some("new"), 100000);
    assert k.versions[0 := edited.versions[0]] == edited.versions;
  }

  lemma LonePublish(k: Article)
    requires |k.versions| == 1 && k.versions[0].status == Review && !k.archived
    ensures Perform(k, Publish(true)).Ok?
    ensures Perform(k, Publish(true)).value.status == Current
    ensures Perform(k, Publish(true)).value.body == k.versions[0].content.body
  {
    assert Latest(k.versions, {Review}) == Some(0);
  }

  // ---------------------------------------------------- what each operation does, exactly

  predicate Editing(k: Article, allowed: bool) {
    !k.archived && allowed
  }

  lemma CreateExactly(allowed: bool, title: string, body: string)
    ensures Created(allowed, title, body).Ok? <==> allowed && AllAccepted(Some(title), 200) && AllAccepted(Some(body), 100000)
    ensures Created(allowed, title, body).Ok? ==>
              var k := Created(allowed, title, body).value;
              && Accepts(title, 200, k.title) && k.body == "" && k.status == Draft && k.version == 1 && !k.archived && k.current == 0
              && |k.versions| == 1 && k.versions[0].number == 1 && k.versions[0].status == Draft
              && k.versions[0].content.title == k.title && Accepts(body, 100000, k.versions[0].content.body)
  {
    AcceptedIsParsed(Some(title), 200);
    AcceptedIsParsed(Some(body), 100000);
    if Created(allowed, title, body).Ok? {
      ParsedExactly(title, 200, Created(allowed, title, body).value.title);
      ParsedExactly(body, 100000, Created(allowed, title, body).value.versions[0].content.body);
    }
  }

  lemma GivenTakes(raw: Option<string>, max: nat, was: string)
    requires AllAccepted(raw, max)
    ensures Took(raw, max, was, Given(raw, max, was))
  {
    AcceptedIsParsed(raw, max);
    if raw.Some? { ParsedExactly(raw.value, max, Given(raw, max, was)); }
  }

  /** An edit is accepted exactly while the last version is a draft or in review; it touches that version and the title. */
  lemma UpdateExactly(k: Article, allowed: bool, title: Option<string>, body: Option<string>)
    requires Inv(k)
    ensures DraftUpdated(k, allowed, title, body).Ok? <==>
              Editing(k, allowed) && AllAccepted(title, 200) && AllAccepted(body, 100000) && LastIn(k.versions, {Draft, Review})
    ensures DraftUpdated(k, allowed, title, body).Ok? ==>
              var m := DraftUpdated(k, allowed, title, body).value;
              && m == k.(title := m.title, versions := m.versions) && Took(title, 200, k.title, m.title)
              && OnlyVersion(k.versions, m.versions, |k.versions| - 1) && Last(m.versions).status == Last(k.versions).status
              && Took(title, 200, Last(k.versions).content.title, Last(m.versions).content.title)
              && Took(body, 100000, Last(k.versions).content.body, Last(m.versions).content.body)
  {
    OpenIsFound(k.versions, {Draft, Review});
    AcceptedIsParsed(title, 200);
    AcceptedIsParsed(body, 100000);
    if DraftUpdated(k, allowed, title, body).Ok? {
      GivenTakes(title, 200, k.title);
      GivenTakes(title, 200, Last(k.versions).content.title);
      GivenTakes(body, 100000, Last(k.versions).content.body);
    }
  }

  lemma SubmitExactly(k: Article, allowed: bool)
    requires Inv(k)
    ensures Submitted(k, allowed).Ok? <==> Editing(k, allowed) && LastIn(k.versions, {Draft})
    ensures Submitted(k, allowed).Ok? ==>
              var m := Submitted(k, allowed).value;
              && m == k.(status := if k.status == Current then Current else Review, versions := m.versions)
              && OnlyVersion(k.versions, m.versions, |k.versions| - 1)
              && Last(m.versions).status == Review && Last(m.versions).content == Last(k.versions).content
  {
    OpenIsFound(k.versions, {Draft});
  }

  /** Only a version in review is published; it comes into force and is shown, and the one before it is superseded. */
  lemma PublishExactly(k: Article, allowed: bool)
    requires Inv(k)
    ensures Published(k, allowed).Ok? <==> Editing(k, allowed) && LastIn(k.versions, {Review})
    ensures Published(k, allowed).Ok? ==>
              var m, last := Published(k, allowed).value, Last(k.versions);
              && PutInForce(k.versions, m.versions, |k.versions| - 1) && m.status == Current && !m.archived
              && m.title == last.content.title && m.body == last.content.body
              && m.version == last.number && m.current == |k.versions| - 1
  {
    OpenIsFound(k.versions, {Review});
  }

  lemma ReviseExactly(k: Article, allowed: bool, body: string, title: Option<string>)
    requires Inv(k)
    ensures RevisionCreated(k, allowed, body, title).Ok? <==> Editing(k, allowed) && !LastIn(k.versions, {Draft, Review})
    ensures RevisionCreated(k, allowed, body, title).Ok? ==>
              var m := RevisionCreated(k, allowed, body, title).value;
              && m == k.(versions := m.versions)
              && OneMoreDraft(k.versions, m.versions, Text(if title.Some? then title.value else k.title, body))
  {
    OpenIsFound(k.versions, {Draft, Review});
    DenseMax(k.versions);
  }

  lemma ArchiveExactly(k: Article, allowed: bool)
    ensures Archived(k, allowed).Ok? <==> Editing(k, allowed)
    ensures Archived(k, allowed).Ok? ==> Archived(k, allowed).value == k.(status := Past, archived := true)
  {
  }
}
