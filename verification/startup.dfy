/** The start-up decision of `PDFDiff.main`: where the two files come from,
    the order in which they are loaded, and whether the program ends
    without a viewer, exits with a status, or opens the viewer.

    The user's answers to the two file dialogs and the outcome of loading
    each file are parameters: a dialog answer is `None` when it is
    cancelled, and `load(f)` is `None` when opening `f` throws. */
module Startup {
  import opened Wrappers
  import opened Document

  /** Exit status when the left file cannot be loaded. */
  const LeftLoadFailed: int := 1
  /** Exit status when the right file cannot be loaded. */
  const RightLoadFailed: int := 2

  /** Dialogs shown to the user, in order. */
  datatype Prompt =
    | ChooseLeft                  // "Select left file"
    | ChooseRight(near: File)     // "Select right file", opened in the left file's folder
    | LoadError(file: File)       // "Startup error" for a file that failed to load

  /** The files obtained and the dialogs shown to obtain them. */
  datatype Selection = Selection(left: Option<File>, right: Option<File>, prompts: seq<Prompt>)

  datatype Outcome =
    | NoViewer                    // plain return: a file was not chosen
    | Exit(status: int)           // `System.exit(status)`
    | OpenViewer(left: Handle, right: Handle)

  /** Everything `main` does: dialogs, files loaded in order, outcome. */
  datatype Launch = Launch(prompts: seq<Prompt>, loaded: seq<File>, outcome: Outcome)

  /** With exactly two arguments they name the files; otherwise the files
      are chosen in dialogs, and the right one is only asked for once a
      left one was chosen. */
  function SelectFiles(args: seq<string>, leftAnswer: Option<File>, rightAnswer: Option<File>): (s: Selection)
    ensures |args| == 2 ==> s == Selection(Some(File(args[0])), Some(File(args[1])), [])
    ensures |args| != 2 ==> s.left == leftAnswer
    ensures |args| != 2 ==> (s.right.Some? <==> leftAnswer.Some? && rightAnswer.Some?)
    ensures |args| != 2 && s.right.Some? ==> s.right == rightAnswer
    ensures |args| != 2 ==> |s.prompts| > 0 && s.prompts[0] == ChooseLeft
    ensures |args| != 2 && leftAnswer.None? ==> s.prompts == [ChooseLeft]
    ensures |args| != 2 && leftAnswer.Some? ==> s.prompts == [ChooseLeft, ChooseRight(leftAnswer.value)]
    ensures forall i :: 0 <= i < |s.prompts| ==> s.prompts[i].ChooseRight? ==> Some(s.prompts[i].near) == leftAnswer
  {
    if |args| != 2 then
      match leftAnswer
      case None => Selection(None, None, [ChooseLeft])
      case Some(l) => Selection(leftAnswer, rightAnswer, [ChooseLeft, ChooseRight(l)])
    else
      Selection(Some(File(args[0])), Some(File(args[1])), [])
  }

  /** Loads the left file, then the right one, and decides the outcome. */
  function Start(args: seq<string>, leftAnswer: Option<File>, rightAnswer: Option<File>,
                 load: File -> Option<PdfDoc>): (r: Launch)
    ensures var s := SelectFiles(args, leftAnswer, rightAnswer);
            && (r.outcome == NoViewer <==> s.left.None? || s.right.None?)
            && (r.outcome == Exit(LeftLoadFailed) <==>
                  s.left.Some? && s.right.Some? && load(s.left.value).None?)
            && (r.outcome == Exit(RightLoadFailed) <==>
                  s.left.Some? && s.right.Some? && load(s.left.value).Some? && load(s.right.value).None?)
            && (r.outcome.OpenViewer? <==>
                  s.left.Some? && s.right.Some? && load(s.left.value).Some? && load(s.right.value).Some?)
    ensures var s := SelectFiles(args, leftAnswer, rightAnswer);
            r.outcome.OpenViewer? ==>
              && r.outcome.left == Handle(s.left.value, load(s.left.value).value, Left)
              && r.outcome.right == Handle(s.right.value, load(s.right.value).value, Right)
    ensures var s := SelectFiles(args, leftAnswer, rightAnswer);
            && (r.outcome == NoViewer ==> r.loaded == [])
            && (r.outcome == Exit(LeftLoadFailed) ==> r.loaded == [s.left.value])
            && (r.outcome == Exit(RightLoadFailed) || r.outcome.OpenViewer? ==>
                  r.loaded == [s.left.value, s.right.value])
    ensures var s := SelectFiles(args, leftAnswer, rightAnswer);
            && s.prompts <= r.prompts
            && (r.outcome.Exit? <==> |r.prompts| == |s.prompts| + 1)
            && (r.outcome.Exit? ==> r.prompts[|s.prompts|] == LoadError(r.loaded[|r.loaded| - 1]))
  {
    var s := SelectFiles(args, leftAnswer, rightAnswer);
    if s.left.None? || s.right.None? then
      Launch(s.prompts, [], NoViewer)
    else
      var leftFile, rightFile := s.left.value, s.right.value;
      match load(leftFile)
      case None => Launch(s.prompts + [LoadError(leftFile)], [leftFile], Exit(LeftLoadFailed))
      case Some(leftDoc) =>
        match load(rightFile)
        case None => Launch(s.prompts + [LoadError(rightFile)], [leftFile, rightFile], Exit(RightLoadFailed))
        case Some(rightDoc) =>
          Launch(s.prompts, [leftFile, rightFile],
                 OpenViewer(NewHandle(leftFile, leftDoc, Left), NewHandle(rightFile, rightDoc, Right)))
  }

  /** The viewer never opens unless both files were loaded, and the two
      exit statuses tell the failing side apart. */
  lemma ViewerOnlyAfterBothLoads(args: seq<string>, leftAnswer: Option<File>, rightAnswer: Option<File>,
                                 load: File -> Option<PdfDoc>)
    ensures var r := Start(args, leftAnswer, rightAnswer, load);
            && (r.outcome.OpenViewer? ==> |r.loaded| == 2 && forall i :: 0 <= i < 2 ==> load(r.loaded[i]).Some?)
            && (r.outcome.Exit? ==> r.outcome.status != 0 && load(r.loaded[|r.loaded| - 1]).None?)
            && (r.outcome.Exit? ==> (r.outcome.status == LeftLoadFailed <==> |r.loaded| == 1))
  {
  }

  /** Cancelling the first dialog ends the program without asking for the
      right file, without loading anything and without an exit status. */
  lemma CancelledLeftEndsQuietly(args: seq<string>, rightAnswer: Option<File>, load: File -> Option<PdfDoc>)
    requires |args| != 2
    ensures Start(args, None, rightAnswer, load) == Launch([ChooseLeft], [], NoViewer)
  {
  }
}
