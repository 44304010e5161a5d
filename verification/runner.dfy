/** `runUserCode` of src/extension.ts: build the shell command for the
    language, run it, and turn what the process reports into either the
    program's output or a rejection. The process itself is outside the
    model: `exec` stands for it and maps a command to what it reports. */
module Runner {

  import opened Wrappers
  import opened Text
  import opened Normalizer
  import opened Registry

  /** What `child_process.exec` hands its callback: whether it reported an
      error (non-zero exit, signal, failure to spawn) and the two streams. */
  datatype Execution = Execution(failed: bool, stdout: string, stderr: string)

  /** A settled promise: resolved with a value or rejected with an error
      whose message is given. */
  datatype Outcome<T> = Resolved(value: T) | Rejected(message: string)

  const UnsupportedLanguage: string := "Unsupported language"

  /** The callback's rule: any reported error or any text on standard error
      rejects with standard error as the message; otherwise the result is
      standard output without its outer whitespace. */
  function Classify(e: Execution): (r: Outcome<string>)
    ensures r.Rejected? <==> e.failed || e.stderr != []
    ensures r.Rejected? ==> r.message == e.stderr
    ensures r.Resolved? ==> r.value == Trim(e.stdout)
  {
    if e.failed || e.stderr != [] then Rejected(e.stderr)
    else Resolved(Trim(e.stdout))
  }

  /** Runs the program at `filePath` on `inputFilePath`. */
  function RunUserCode(filePath: string, inputFilePath: string, language: string,
                       exec: string -> Execution): (r: Outcome<string>)
    ensures !Supported(language) ==> r == Rejected(UnsupportedLanguage)
    ensures Supported(language) ==>
      r == Classify(exec(GetRunCommand(filePath, inputFilePath, language).value))
  {
    match GetRunCommand(filePath, inputFilePath, language)
    case None => Rejected(UnsupportedLanguage)
    case Some(command) => Classify(exec(command))
  }

  /** Trimming loses nothing the comparison looks at: a resolved result
      normalises exactly as the raw standard output does, and trimming it
      again changes nothing. */
  lemma ResolvedNormalizesLikeStdout(e: Execution)
    requires Classify(e).Resolved?
    ensures Normalize(Classify(e).value) == Normalize(e.stdout)
    ensures Trim(Classify(e).value) == Classify(e).value
  {
    NormalizeTrimmed(e.stdout);
    TrimIdempotent(e.stdout);
  }

  /** Text on standard error fails the run even when the process exits
      cleanly, for instance a compiler warning. */
  lemma StderrAloneRejects(e: Execution)
    requires !e.failed && e.stderr != []
    ensures Classify(e) == Rejected(e.stderr)
  {
  }

  /** A process that fails without writing to standard error is rejected
      with an empty message. */
  lemma SilentFailureHasEmptyMessage(e: Execution)
    requires e.failed && e.stderr == []
    ensures Classify(e) == Rejected("")
  {
  }

  /** Every language the editor detection yields has a run command, so the
      "Unsupported language" branch is never reached from a detected
      language. */
  lemma DetectedLanguageHasCommand(languageId: string, filePath: string, inputFilePath: string)
    requires GetLanguageFromExtension(languageId).Some?
    ensures GetRunCommand(filePath, inputFilePath, GetLanguageFromExtension(languageId).value).Some?
  {
  }
}
