/**
  The interactive question chain of `index.ts`, asked when no project directory is given
  on the command line: project name, package name (only when the directory is not already
  a valid package name), framework, variant. The terminal widget is replaced by the
  sequence of replies the user gives; each reply either answers the current question,
  is refused and leaves the question open, or cancels the whole session.
 */
module Questions {
  import opened Wrappers
  import opened PackageName
  import opened TargetDir
  import opened Catalog

  /** One user action: submitting a text field (an empty submission takes the field's
      initial value), choosing the item at an index of a select list, or cancelling. */
  datatype Reply = Typed(text: string) | Picked(index: nat) | Abort

  datatype Question = ProjectName | PackageNameQuestion | FrameworkQuestion | VariantQuestion(family: Framework)

  /** What the session has recorded so far. `targetDir` is the formatted project directory
      the project-name question writes through its state callback; the other fields are
      the answers of the later questions, absent until given. */
  datatype Answers = Answers(targetDir: string, packageName: Option<string>,
                             framework: Option<Framework>, variant: Option<string>)

  datatype Session = Asking(question: Question, answers: Answers) | Done(answers: Answers) | Cancelled

  const NoAnswers := Answers("", None, None, None)

  const Start := Asking(ProjectName, NoAnswers)

  /** The initial value of the project-name field. */
  const DefaultProjectName := "my-app"

  /** The question that follows the project name: the package-name question is skipped
      when the directory is already a valid package name. */
  function AfterProjectName(dir: string): Question {
    if IsValidPackageName(dir) then FrameworkQuestion else PackageNameQuestion
  }

  /** The session after one reply. */
  function Step(s: Session, reply: Reply): Session {
    match s
    case Done(_) => s
    case Cancelled => s
    case Asking(q, a) =>
      if reply.Abort? then Cancelled
      else match q
        case ProjectName =>
          if reply.Typed? then
            var dir := FormatTargetDir(if reply.text == "" then DefaultProjectName else reply.text);
            Asking(AfterProjectName(dir), a.(targetDir := dir))
          else s
        case PackageNameQuestion =>
          if reply.Typed? then
            var name := Submitted(a, reply.text);
            if IsValidPackageName(name) then Asking(FrameworkQuestion, a.(packageName := Some(name)))
            else s
          else s
        case FrameworkQuestion =>
          if reply.Picked? && reply.index < |Frameworks| then
            var f := Frameworks[reply.index];
            Asking(VariantQuestion(f), a.(framework := Some(f)))
          else s
        case VariantQuestion(f) =>
          if reply.Picked? && reply.index < |f.variants| then
            Done(a.(variant := Some(f.variants[reply.index].name)))
          else s
  }

  /** The session after a sequence of replies, starting from `s`. */
  function RunFrom(s: Session, replies: seq<Reply>): Session
    decreases |replies|
  {
    if |replies| == 0 then s else RunFrom(Step(s, replies[0]), replies[1..])
  }

  function Run(replies: seq<Reply>): Session {
    RunFrom(Start, replies)
  }

  /** The package-name answer is given exactly when the directory is not a valid name, and
      when given it is valid. */
  ghost predicate PackageNameSettled(a: Answers) {
    && (a.packageName.Some? <==> !IsValidPackageName(a.targetDir))
    && (a.packageName.Some? ==> IsValidPackageName(a.packageName.value))
  }

  /** A variant name that the framework's variant list offers. */
  ghost predicate Offers(f: Framework, name: string) {
    exists i :: 0 <= i < |f.variants| && f.variants[i].name == name
  }

  /** What holds of every session the chain can reach. */
  ghost predicate Inv(s: Session) {
    match s
    case Cancelled => true
    case Asking(ProjectName, a) => a == NoAnswers
    case Asking(PackageNameQuestion, a) =>
      !IsValidPackageName(a.targetDir) && a.packageName.None? && a.framework.None? && a.variant.None?
    case Asking(FrameworkQuestion, a) =>
      PackageNameSettled(a) && a.framework.None? && a.variant.None?
    case Asking(VariantQuestion(f), a) =>
      PackageNameSettled(a) && a.framework == Some(f) && f in Frameworks && a.variant.None?
    case Done(a) =>
      && PackageNameSettled(a)
      && a.framework.Some? && a.framework.value in Frameworks
      && a.variant.Some? && Offers(a.framework.value, a.variant.value)
  }

  lemma {:induction false} StepKeepsInv(s: Session, reply: Reply)
    requires Inv(s)
    ensures Inv(Step(s, reply))
  {
    if s.Asking? && !reply.Abort? {
      var a := s.answers;
      match s.question
      case ProjectName =>
      case PackageNameQuestion =>
      case FrameworkQuestion =>
      case VariantQuestion(f) =>
        if reply.Picked? && reply.index < |f.variants| {
          assert Offers(f, f.variants[reply.index].name);
        }
    }
  }

  lemma {:induction false} RunFromKeepsInv(s: Session, replies: seq<Reply>)
    requires Inv(s)
    ensures Inv(RunFrom(s, replies))
    decreases |replies|
  {
    if |replies| > 0 {
      StepKeepsInv(s, replies[0]);
      RunFromKeepsInv(Step(s, replies[0]), replies[1..]);
    }
  }

  /** Every finished session has a valid package name or a valid directory, never both, and
      a variant that the chosen catalogued framework offers. */
  lemma {:induction false} FinishedSession(replies: seq<Reply>)
    requires Run(replies).Done?
    ensures var a := Run(replies).answers;
            && (a.packageName.Some? <==> !IsValidPackageName(a.targetDir))
            && (a.packageName.Some? ==> IsValidPackageName(a.packageName.value))
            && a.framework.Some? && a.framework.value in Frameworks
            && a.variant.Some? && a.variant.value in TemplateIds
            && Offers(a.framework.value, a.variant.value)
  {
    RunFromKeepsInv(Start, replies);
    var a := Run(replies).answers;
    var i :| 0 <= i < |a.framework.value.variants| && a.framework.value.variants[i].name == a.variant.value;
    CatalogNamesAreTemplates(a.framework.value, i);
  }

  /** What the package-name question takes from a typed text: the text itself, or the
      suggested normalisation of the directory when nothing is typed. */
  function Submitted(a: Answers, text: string): string {
    if text == "" then ToValidPackageName(a.targetDir) else text
  }

  /** A typed package name moves the session on exactly when it (or, when nothing is typed,
      the suggested normalisation of the directory) is valid; otherwise the question stays. */
  lemma {:induction false} PackageAnswerAcceptedIff(a: Answers, text: string)
    ensures var name := Submitted(a, text);
            var next := Step(Asking(PackageNameQuestion, a), Typed(text));
            && (IsValidPackageName(name) ==> next == Asking(FrameworkQuestion, a.(packageName := Some(name))))
            && (!IsValidPackageName(name) ==> next == Asking(PackageNameQuestion, a))
  {
  }

  /** However many refused names are typed, the package-name question stays open with
      nothing recorded; only a valid name, or a cancellation, moves the session on. */
  lemma {:induction false} RefusedNamesKeepAsking(a: Answers, replies: seq<Reply>)
    requires forall i | 0 <= i < |replies| :: replies[i].Typed? && !IsValidPackageName(Submitted(a, replies[i].text))
    ensures RunFrom(Asking(PackageNameQuestion, a), replies) == Asking(PackageNameQuestion, a)
    decreases |replies|
  {
    if |replies| > 0 {
      PackageAnswerAcceptedIff(a, replies[0].text);
      RefusedNamesKeepAsking(a, replies[1..]);
    }
  }

  /** No sequence of replies records an invalid package name, and a name is recorded only
      when the directory itself is not a valid one. */
  lemma {:induction false} RecordedNameIsValid(replies: seq<Reply>)
    requires !Run(replies).Cancelled?
    ensures var a := Run(replies).answers;
            a.packageName.Some? ==> IsValidPackageName(a.packageName.value) && !IsValidPackageName(a.targetDir)
  {
    RunFromKeepsInv(Start, replies);
  }

  /** Cancelling at any open question ends the session, and nothing brings it back. */
  lemma {:induction false} AbortIsFinal(s: Session, rest: seq<Reply>)
    requires s.Asking?
    ensures RunFrom(s, [Abort] + rest) == Cancelled
  {
    assert ([Abort] + rest)[1..] == rest;
    CancelledStays(rest);
  }

  lemma {:induction false} CancelledStays(replies: seq<Reply>)
    ensures RunFrom(Cancelled, replies) == Cancelled
    decreases |replies|
  {
    if |replies| > 0 {
      CancelledStays(replies[1..]);
    }
  }
}
