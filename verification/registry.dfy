/** The language registry of src/extension.ts: the languages offered when
    test cases are fetched, and the four closed switches over strings that
    give, for a language, its shell command, its file extension and its
    starter code, and, for an editor language identifier, the language. */
module Registry {

  import opened Wrappers
  import opened Text

  /** The quick-pick list shown when test cases are fetched. */
  const Languages: seq<string> := ["C++", "Python"]

  predicate Supported(language: string) {
    language == "C++" || language == "Python"
  }

  function Quote(s: string): string {
    "\"" + s + "\""
  }

  /** The shell command that runs the file at `filePath` on the contents of
      `inputFilePath`; `None` for a language the extension cannot run. */
  function GetRunCommand(filePath: string, inputFilePath: string, language: string): (r: Option<string>)
    ensures r.Some? <==> Supported(language)
    ensures r.Some? ==> EndsWith(r.value, " < " + Quote(inputFilePath))
  {
    match language
    case "C++" =>
      var exe := filePath + ".exe";
      Some("g++ " + Quote(filePath) + " -o " + Quote(exe) + " && " + Quote(exe) + " < " + Quote(inputFilePath))
    case "Python" =>
      Some("python " + Quote(filePath) + " < " + Quote(inputFilePath))
    case _ => None
  }

  /** The extension of the solution file scaffolded for a language. */
  function GetFileExtension(language: string): (r: string)
    ensures r != []
    ensures r == "txt" <==> !Supported(language)
  {
    match language
    case "C++" => "cpp"
    case "Python" => "py"
    case _ => "txt"
  }

  /** The C++ template, line by line. */
  const CppStarterLines: seq<string> := [
    "#include <bits/stdc++.h>",
    "using namespace std;",
    "using llu = unsigned long long;",
    "using ll = long long;",
    "using ld = long double;",
    "using vl = vector<ll>;",
    "using sl = set<ll>;",
    "using msl = multiset<ll>;",
    "using ma = map<ll, ll>;",
    "using vvl = vector<vector<ll>>;",
    "using vp = vector<pair<ll, ll>>;",
    "using sp = set<pair<ll, ll>>;",
    "using msp = multiset<pair<ll, ll>>;",
    "",
    "int main()",
    "{",
    "    ios_base::sync_with_stdio(false);",
    "    cin.tie(NULL);",
    "    cout.tie(NULL);",
    "          // Start your code here",
    "    return 0;",
    "}"
  ]

  /** The Python template, line by line. */
  const PythonStarterLines: seq<string> := [
    "# Write your code here",
    "def main():",
    "    pass",
    "",
    "if __name__ == \"__main__\":",
    "    main()"
  ]

  const UnsupportedStarter: string := "// Unsupported language"

  /** The contents of the scaffolded solution file: a template joined with
      "\n" for a supported language (both begin with a `#` line), and the
      placeholder comment otherwise. */
  function GetStarterCode(language: string): (r: string)
    ensures r != []
    ensures Supported(language) ==> r[0] == '#'
    ensures r == UnsupportedStarter <==> !Supported(language)
  {
    match language
    case "C++" =>
      assert CppStarterLines[0][0] == '#' != UnsupportedStarter[0];
      Join(CppStarterLines)
    case "Python" =>
      assert PythonStarterLines[0][0] == '#' != UnsupportedStarter[0];
      Join(PythonStarterLines)
    case _ => UnsupportedStarter
  }

  /** The language to run for an editor whose document has language
      identifier `languageId`; `None` when the extension cannot run it. */
  function GetLanguageFromExtension(languageId: string): (r: Option<string>)
    ensures r.Some? <==> languageId == "cpp" || languageId == "python"
    ensures r.Some? ==> Supported(r.value)
  {
    match languageId
    case "cpp" => Some("C++")
    case "python" => Some("Python")
    case _ => None
  }

  /** The quick-pick list offers exactly the languages the registry knows. */
  lemma LanguagesAreSupported(language: string)
    ensures language in Languages <==> Supported(language)
  {
    if Supported(language) {
      assert language == Languages[0] || language == Languages[1];
    }
  }

  /** The C++ command first compiles the source to `filePath + ".exe"` and
      then runs that very executable with its standard input read from
      `inputFilePath`. */
  lemma CppCompilesThenRuns(filePath: string, inputFilePath: string)
    ensures var c := GetRunCommand(filePath, inputFilePath, "C++");
      c.Some? &&
      StartsWith(c.value, "g++ " + Quote(filePath) + " -o " + Quote(filePath + ".exe") + " && ") &&
      EndsWith(c.value, Quote(filePath + ".exe") + " < " + Quote(inputFilePath))
  {
    var exe := filePath + ".exe";
    var compile := "g++ " + Quote(filePath) + " -o " + Quote(exe) + " && ";
    var run := Quote(exe) + " < " + Quote(inputFilePath);
    assert GetRunCommand(filePath, inputFilePath, "C++").value == compile + run;
  }

  /** The Python command hands the source file to the interpreter, again
      with standard input read from `inputFilePath`. */
  lemma PythonInterprets(filePath: string, inputFilePath: string)
    ensures var c := GetRunCommand(filePath, inputFilePath, "Python");
      c.Some? && StartsWith(c.value, "python " + Quote(filePath) + " < ")
  {
    var interpret := "python " + Quote(filePath) + " < ";
    assert GetRunCommand(filePath, inputFilePath, "Python").value == interpret + Quote(inputFilePath);
  }

  /** Distinct supported languages get distinct solution files. */
  lemma ExtensionsDistinct(a: string, b: string)
    requires Supported(a) && Supported(b) && a != b
    ensures GetFileExtension(a) != GetFileExtension(b)
  {
  }

  /** Detection keys are editor language identifiers, not file extensions:
      they coincide for C++ and differ for Python, whose files end in "py"
      while its identifier is "python". */
  lemma DetectionKeysAreLanguageIds()
    ensures GetLanguageFromExtension(GetFileExtension("C++")) == Some("C++")
    ensures GetLanguageFromExtension(GetFileExtension("Python")) == None
    ensures GetLanguageFromExtension("python") == Some("Python")
  {
  }

  /** Every language the quick pick offers gets its own extension and a
      real template: the "txt" and placeholder fallbacks are never used
      when a solution file is scaffolded. */
  lemma OfferedLanguagesScaffold(language: string)
    requires language in Languages
    ensures GetFileExtension(language) != "txt"
    ensures GetStarterCode(language) != UnsupportedStarter
  {
    LanguagesAreSupported(language);
  }
}
