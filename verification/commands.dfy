/** The decision logic of the `runAndCompare` command of src/extension.ts:
    three checks that stop the command with an error message, then running
    the program, reading the expected output and judging the result. The
    workspace search, the editor, the process and the file system are
    inputs: what the search found, the active editor if any, `exec` for the
    process and `readFile` for reading a file. */
module Commands {

  import opened Wrappers
  import opened Text
  import opened Normalizer
  import opened Registry
  import opened Runner
  import opened Compare

  /** A message shown to the user. */
  datatype Notice = Information(text: string) | Error(text: string)

  /** The document in the active editor. */
  datatype Editor = Editor(languageId: string, filePath: string)

  /** The paths of the first inputs.txt and outputs.txt found, if any. */
  datatype Workspace = Workspace(inputsFile: Option<string>, outputsFile: Option<string>)

  /** Either the message the command stops with, or what it needs to run. */
  datatype Gate =
    | Stop(message: string)
    | Proceed(inputFilePath: string, outputFilePath: string, userFilePath: string, language: string)

  const MissingFiles: string := "inputs.txt or outputs.txt file not found in the workspace."
  const NoActiveEditor: string := "No active editor found."
  const UnsupportedForExecution: string := "Unsupported language for execution."

  /** The three checks, in this order: both files found, an editor open, a
      language that can be run. */
  function CheckPreconditions(ws: Workspace, editor: Option<Editor>): (g: Gate)
    ensures ws.inputsFile.None? || ws.outputsFile.None? ==> g == Stop(MissingFiles)
    ensures ws.inputsFile.Some? && ws.outputsFile.Some? && editor.None? ==> g == Stop(NoActiveEditor)
    ensures g.Proceed? <==> ws.inputsFile.Some? && ws.outputsFile.Some? && editor.Some?
                            && GetLanguageFromExtension(editor.value.languageId).Some?
    ensures g.Stop? && ws.inputsFile.Some? && ws.outputsFile.Some? && editor.Some?
            ==> g.message == UnsupportedForExecution
    ensures g.Proceed? ==> Supported(g.language)
    ensures g.Proceed? ==>
      g == Proceed(ws.inputsFile.value, ws.outputsFile.value, editor.value.filePath,
                   GetLanguageFromExtension(editor.value.languageId).value)
  {
    if ws.inputsFile.None? || ws.outputsFile.None? then Stop(MissingFiles)
    else if editor.None? then Stop(NoActiveEditor)
    else
      match GetLanguageFromExtension(editor.value.languageId)
      case None => Stop(UnsupportedForExecution)
      case Some(language) =>
        Proceed(ws.inputsFile.value, ws.outputsFile.value, editor.value.filePath, language)
  }

  /** The message of the `catch` around the whole command. */
  function Caught(message: string): string {
    "Error: " + message
  }

  /** The notice the command ends with. The only information notice is
      the pass message; everything else it reports is an error. */
  function RunAndCompare(ws: Workspace, editor: Option<Editor>,
                         exec: string -> Execution, readFile: string -> Outcome<string>): (n: Notice)
    ensures n.Information? ==> n.text == PassedMessage
  {
    match CheckPreconditions(ws, editor)
    case Stop(message) => Error(message)
    case Proceed(inputFilePath, outputFilePath, userFilePath, language) =>
      match RunUserCode(userFilePath, inputFilePath, language, exec)
      case Rejected(message) => Error(Caught(message))
      case Resolved(actual) =>
        match readFile(outputFilePath)
        case Rejected(message) => Error(Caught(message))
        case Resolved(expected) =>
          match Judge(actual, expected)
          case Passed => Information(PassedMessage)
          case Failed(message) => Error(message)
  }

  /** The command the process is asked to run once the checks pass. */
  function CommandFor(g: Gate): string
    requires g.Proceed? && Supported(g.language)
  {
    GetRunCommand(g.userFilePath, g.inputFilePath, g.language).value
  }

  /** When a check stops the command nothing is run and nothing is read:
      the outcome does not depend on the process or the file system. */
  lemma StopRunsNothing(ws: Workspace, editor: Option<Editor>,
                        exec1: string -> Execution, readFile1: string -> Outcome<string>,
                        exec2: string -> Execution, readFile2: string -> Outcome<string>)
    requires CheckPreconditions(ws, editor).Stop?
    ensures RunAndCompare(ws, editor, exec1, readFile1) == RunAndCompare(ws, editor, exec2, readFile2)
    ensures RunAndCompare(ws, editor, exec1, readFile1) == Error(CheckPreconditions(ws, editor).message)
  {
  }

  /** The checks pass, the process reports no error and nothing on
      standard error, the expected output can be read, and the program's
      output normalises to the expected output. */
  predicate OutputsAgree(ws: Workspace, editor: Option<Editor>,
                         exec: string -> Execution, readFile: string -> Outcome<string>)
  {
    var g := CheckPreconditions(ws, editor);
    g.Proceed? &&
    var e := exec(CommandFor(g));
    !e.failed && e.stderr == [] &&
    readFile(g.outputFilePath).Resolved? &&
    Normalize(e.stdout) == Normalize(readFile(g.outputFilePath).value)
  }

  /** The outcome once the checks pass and the process succeeds. */
  lemma AfterCleanRun(ws: Workspace, editor: Option<Editor>,
                      exec: string -> Execution, readFile: string -> Outcome<string>)
    requires CheckPreconditions(ws, editor).Proceed?
    requires var e := exec(CommandFor(CheckPreconditions(ws, editor)));
      !e.failed && e.stderr == []
    ensures var g := CheckPreconditions(ws, editor);
      var e := exec(CommandFor(g));
      RunAndCompare(ws, editor, exec, readFile) ==
        match readFile(g.outputFilePath)
        case Rejected(message) => Error(Caught(message))
        case Resolved(expected) =>
          if Normalize(e.stdout) == Normalize(expected) then Information(PassedMessage)
          else Error(FailureMessage(Normalize(expected), Normalize(e.stdout)))
  {
    var g := CheckPreconditions(ws, editor);
    var e := exec(CommandFor(g));
    assert RunUserCode(g.userFilePath, g.inputFilePath, g.language, exec) == Classify(e);
    ResolvedNormalizesLikeStdout(e);
  }

  /** The test passes exactly when the outputs agree. */
  lemma PassedIff(ws: Workspace, editor: Option<Editor>,
                  exec: string -> Execution, readFile: string -> Outcome<string>)
    ensures RunAndCompare(ws, editor, exec, readFile) == Information(PassedMessage)
      <==> OutputsAgree(ws, editor, exec, readFile)
  {
    var g := CheckPreconditions(ws, editor);
    if g.Proceed? {
      var e := exec(CommandFor(g));
      if !e.failed && e.stderr == [] {
        AfterCleanRun(ws, editor, exec, readFile);
      } else {
        assert RunUserCode(g.userFilePath, g.inputFilePath, g.language, exec) == Classify(e);
      }
    }
  }

  /** A failing process is reported before the expected output is read,
      with standard error after "Error: ". */
  lemma RunFailureReported(ws: Workspace, editor: Option<Editor>,
                           exec: string -> Execution, readFile: string -> Outcome<string>)
    requires CheckPreconditions(ws, editor).Proceed?
    requires var e := exec(CommandFor(CheckPreconditions(ws, editor)));
      e.failed || e.stderr != []
    ensures RunAndCompare(ws, editor, exec, readFile)
      == Error(Caught(exec(CommandFor(CheckPreconditions(ws, editor))).stderr))
  {
  }

  /** A mismatch is reported with both normalised texts, which can be read
      back out of the message. */
  lemma MismatchReported(ws: Workspace, editor: Option<Editor>,
                         exec: string -> Execution, readFile: string -> Outcome<string>)
    requires var g := CheckPreconditions(ws, editor);
      g.Proceed? &&
      var e := exec(CommandFor(g));
      !e.failed && e.stderr == [] &&
      readFile(g.outputFilePath).Resolved? &&
      Normalize(e.stdout) != Normalize(readFile(g.outputFilePath).value)
    ensures var g := CheckPreconditions(ws, editor);
      var n := RunAndCompare(ws, editor, exec, readFile);
      n.Error? &&
      ParseFailureMessage(n.text) ==
        Some((Normalize(readFile(g.outputFilePath).value), Normalize(exec(CommandFor(g)).stdout)))
  {
    var g := CheckPreconditions(ws, editor);
    var e := exec(CommandFor(g));
    var expected := readFile(g.outputFilePath).value;
    ResolvedNormalizesLikeStdout(e);
    JudgeFailureReadable(Trim(e.stdout), expected);
  }
}
