/** `PDFBatchProcessor` of `src/pdf/pdf_batch_processor.py`: runs the final
    splitter over every PDF of a directory and tallies the outcomes.  The
    file system is an oracle (`Dir` lists a directory's entry names in the
    order the directory yields them), and so is the per-file call into
    `PDFSplitterFinal.smart_process_pdf`, whose own behaviour the
    `SplitterFinal` module describes.  Paths are `pathlib` paths: the
    report's paths and the per-file `relative_to` follow its normalisation. */
module BatchProcessor {
  import opened Wrappers
  import opened PyText
  import opened PdfFiles

  const DirMissing := "目录不存在"
  const NotADirectory := "不是目录"
  const NoPdfFiles := "没有PDF文件"
  const EmptyList := "文件列表为空"
  const NoValidFiles := "没有有效的PDF文件"
  /** What `result.get('error', ...)` falls back to. */
  const UnknownError := "未知错误"

  // ---------------------------------------------------------------------
  // pathlib paths

  /** A POSIX `pathlib` path: anchored at '/' or not, and its parts below
      the anchor. */
  datatype PPath = PPath(absolute: bool, parts: seq<string>)

  /** A part as `pathlib` keeps it: not empty, not '.', without '/'. */
  predicate IsPart(s: string) {
    s != "" && s != "." && '/' !in s
  }

  predicate WellFormed(p: PPath) {
    forall i :: 0 <= i < |p.parts| ==> IsPart(p.parts[i])
  }

  /** The pieces between slashes that `pathlib` keeps: empty pieces and '.'
      are dropped, '..' is kept. */
  function KeptParts(pieces: seq<string>): (r: seq<string>)
    ensures |r| <= |pieces|
    ensures forall i :: 0 <= i < |r| ==> r[i] in pieces && r[i] != "" && r[i] != "."
  {
    if pieces == [] then []
    else (if pieces[0] == "" || pieces[0] == "." then [] else [pieces[0]]) + KeptParts(pieces[1..])
  }

  /** `Path(s)` */
  function ParsePath(s: string): (p: PPath)
    ensures WellFormed(p)
    ensures p.absolute <==> s != "" && s[0] == '/'
  {
    var pieces := Split(s, '/');
    var kept := KeptParts(pieces);
    assert forall i :: 0 <= i < |kept| ==> '/' !in kept[i] by {
      forall i | 0 <= i < |kept| ensures '/' !in kept[i] {
        var k :| 0 <= k < |pieces| && pieces[k] == kept[i];
      }
    }
    PPath(s != "" && s[0] == '/', kept)
  }

  /** `a / b`: an absolute `b` replaces `a`. */
  function Child(a: PPath, b: PPath): PPath {
    if b.absolute then b else PPath(a.absolute, a.parts + b.parts)
  }

  /** `str(p)`: the anchor and the parts joined by '/', '.' for an empty
      relative path. */
  function Str(p: PPath): string {
    if p.absolute then "/" + Join(p.parts, "/")
    else if p.parts == [] then "."
    else Join(p.parts, "/")
  }

  /** `p.name`: the last part, '' for a path without parts. */
  function Name(p: PPath): string {
    if p.parts == [] then "" else p.parts[|p.parts| - 1]
  }

  /** `p.relative_to(base)`: what follows `base`'s parts when they open
      `p`'s under the same anchor; `None` where the call raises `ValueError`.
      The test is on the parts alone: '..' is not resolved. */
  function RelativeTo(p: PPath, base: PPath): (r: Option<PPath>)
    ensures r.Some? ==> !r.value.absolute && Child(base, r.value) == p
  {
    if p.absolute == base.absolute && |base.parts| <= |p.parts| && p.parts[..|base.parts|] == base.parts
    then
      var rest := PPath(false, p.parts[|base.parts|..]);
      assert base.parts + rest.parts == p.parts;
      Some(rest)
    else None
  }

  /** `relative_to` undoes `/` with a relative path. */
  lemma RelativeToChild(base: PPath, r: PPath)
    requires !r.absolute
    ensures RelativeTo(Child(base, r), base) == Some(r)
  {
    var p := Child(base, r);
    assert p.parts[..|base.parts|] == base.parts;
    assert p.parts[|base.parts|..] == r.parts;
  }

  /** The joined parts of a non-empty list start with its first part. */
  lemma {:induction false} JoinStarts(parts: seq<string>)
    requires parts != [] && parts[0] != ""
    ensures Join(parts, "/") != "" && Join(parts, "/")[0] == parts[0][0]
  {
  }

  /** The parts that are already kept are kept as they are. */
  lemma {:induction false} KeptPartsOfParts(parts: seq<string>)
    requires forall i :: 0 <= i < |parts| ==> IsPart(parts[i])
    ensures KeptParts(parts) == parts
    ensures KeptParts([""] + parts) == parts
  {
    if parts != [] {
      KeptPartsOfParts(parts[1..]);
      assert [parts[0]] + parts[1..] == parts;
    }
    assert ([""] + parts)[1..] == parts;
  }

  /** `Path(str(p)) == p`: printing a path and parsing it back gives the
      same path. */
  lemma StrParse(p: PPath)
    requires WellFormed(p)
    ensures ParsePath(Str(p)) == p
  {
    var s := Str(p);
    KeptPartsOfParts(p.parts);
    if p.parts == [] {
      if p.absolute {
        SplitAfterPiece("", '/', "");
        assert "" + ['/'] + "" == s;
        assert KeptParts(Split(s, '/')) == p.parts;
      } else {
        SplitNoSeparator(".", '/');
        assert KeptParts(Split(s, '/')) == p.parts;
      }
    } else if p.absolute {
      StrParseAbsolute(p);
    } else {
      SplitJoin(p.parts, '/');
      JoinStarts(p.parts);
      assert KeptParts(Split(s, '/')) == p.parts;
    }
  }

  lemma StrParseAbsolute(p: PPath)
    requires WellFormed(p) && p.absolute && p.parts != []
    ensures KeptParts(Split(Str(p), '/')) == p.parts
  {
    var j := Join(p.parts, "/");
    KeptPartsOfParts(p.parts);
    SplitJoin(p.parts, '/');
    SplitAfterPiece("", '/', j);
    assert "" + ['/'] + j == Str(p);
  }

  lemma ChildWellFormed(a: PPath, b: PPath)
    requires WellFormed(a) && WellFormed(b)
    ensures WellFormed(Child(a, b))
  {
    if !b.absolute {
      var parts := a.parts + b.parts;
      assert forall i :: |a.parts| <= i < |parts| ==> parts[i] == b.parts[i - |a.parts|];
    }
  }

  /** What `relative_to` raises (in the wording of Python 3.12). */
  function NotInSubpath(p: PPath, base: PPath): string {
    "'" + Str(p) + "' is not in the subpath of '" + Str(base) + "'"
  }

  // ---------------------------------------------------------------------
  // the per-file loop

  /** What the input path is. */
  datatype DirState = Missing | NotDir | Dir(entries: seq<string>)

  /** What processing one file gave: an exception, or the splitter's result
      with its success flag, its error if it gave one and its chapter
      count. */
  datatype FileOutcome = Raised(message: string) | Finished(success: bool, error: Option<string>, chaptersCreated: nat)

  /** One `file_results` entry. */
  datatype FileResult =
    | FileOk(file: string, chaptersCreated: nat, outputSubdir: string)
    | FileFailed(file: string, error: string)

  datatype BatchReport = BatchReport(inputDir: string, outputDir: string, totalFiles: nat,
                                     successful: nat, failed: nat, fileResults: seq<FileResult>,
                                     success: bool)

  /** What one file adds to the report: its entry, and how much it adds to
      `successful` and to `failed`. */
  datatype Step = Step(entry: FileResult, successes: nat, failures: nat)

  /** `input_dir.glob("*.pdf")` */
  function PdfGlob(entries: seq<string>): (r: seq<string>)
    ensures |r| <= |entries|
  {
    Glob(entries, ".pdf")
  }

  /** The pattern is case-sensitive: a '.PDF' file is not picked up. */
  lemma GlobIsCaseSensitive(entries: seq<string>, name: string)
    requires EndsWith(name, ".PDF")
    ensures name !in PdfGlob(entries)
  {
    GlobMembers(entries, ".pdf", name);
    assert name[|name| - 1] == 'F';
  }

  /** `output_dir / pdf_file.stem` */
  function FileOutputDir(outputDir: PPath, file: PPath): PPath {
    Child(outputDir, ParsePath(Stem(Name(file))))
  }

  /** The splitter succeeded but `relative_to` raised: the file is counted
      as a success and then as a failure. */
  predicate DoubleCounted(base: PPath, outputDir: PPath, file: PPath, outcome: FileOutcome) {
    outcome.Finished? && outcome.success && RelativeTo(FileOutputDir(outputDir, file), base).None?
  }

  /** One pass of the loop body for `file`.  As written, `successful` is
      bumped before `relative_to` runs, so a raise there lands in the
      `except` branch, which bumps `failed` as well. */
  function StepOf(base: PPath, outputDir: PPath, file: PPath, outcome: FileOutcome): Step {
    var name := Str(file);
    match outcome
    case Raised(m) => Step(FileFailed(name, m), 0, 1)
    case Finished(ok, err, chapters) =>
      if !ok then Step(FileFailed(name, if err.Some? then err.value else UnknownError), 0, 1)
      else
        var fileOutputDir := FileOutputDir(outputDir, file);
        match RelativeTo(fileOutputDir, base)
        case Some(rel) => Step(FileOk(name, chapters, Str(rel)), 1, 0)
        case None => Step(FileFailed(name, NotInSubpath(fileOutputDir, base)), 1, 1)
  }

  /** Every entry names its own file; a file is counted once or twice, as a
      success exactly when the splitter reported success, and twice exactly
      when `relative_to` then raised; an entry is a success exactly when
      the file was not counted as a failure. */
  lemma StepRules(base: PPath, outputDir: PPath, file: PPath, outcome: FileOutcome)
    ensures var s := StepOf(base, outputDir, file, outcome);
      && s.entry.file == Str(file)
      && s.successes <= 1 && s.failures <= 1 && 1 <= s.successes + s.failures
      && (s.successes == 1 <==> outcome.Finished? && outcome.success)
      && (s.successes + s.failures == 2 <==> DoubleCounted(base, outputDir, file, outcome))
      && (s.entry.FileOk? <==> s.failures == 0)
      && (s.entry.FileOk? <==> outcome.Finished? && outcome.success && !DoubleCounted(base, outputDir, file, outcome))
      && (outcome.Finished? && !outcome.success && outcome.error.None? ==>
            s.entry == FileFailed(Str(file), UnknownError))
  {
  }

  /** The steps of the loop over `files`, in order. */
  function StepsOf(base: PPath, outputDir: PPath, files: seq<PPath>, process: PPath -> FileOutcome)
    : (r: seq<Step>)
    ensures |r| == |files|
    ensures forall i :: 0 <= i < |files| ==> r[i] == StepOf(base, outputDir, files[i], process(files[i]))
  {
    seq(|files|, i requires 0 <= i < |files| => StepOf(base, outputDir, files[i], process(files[i])))
  }

  function SuccessCount(steps: seq<Step>): nat {
    if steps == [] then 0 else SuccessCount(steps[..|steps| - 1]) + steps[|steps| - 1].successes
  }

  function FailureCount(steps: seq<Step>): nat {
    if steps == [] then 0 else FailureCount(steps[..|steps| - 1]) + steps[|steps| - 1].failures
  }

  function Entries(steps: seq<Step>): (r: seq<FileResult>)
    ensures |r| == |steps|
    ensures forall i :: 0 <= i < |steps| ==> r[i] == steps[i].entry
  {
    seq(|steps|, i requires 0 <= i < |steps| => steps[i].entry)
  }

  /** When every step counts once or twice, the counters add up to at
      least the number of steps, and to exactly that when every step counts
      once. */
  lemma {:induction false} CountsCover(steps: seq<Step>)
    requires forall i :: 0 <= i < |steps| ==> 1 <= steps[i].successes + steps[i].failures <= 2
    ensures |steps| <= SuccessCount(steps) + FailureCount(steps)
    ensures SuccessCount(steps) + FailureCount(steps) == |steps| <==>
      forall i :: 0 <= i < |steps| ==> steps[i].successes + steps[i].failures == 1
  {
    if steps != [] {
      var init := steps[..|steps| - 1];
      assert forall i :: 0 <= i < |init| ==> init[i] == steps[i];
      CountsCover(init);
    }
  }

  /** No failure was counted exactly when no step counted one. */
  lemma {:induction false} NoFailures(steps: seq<Step>)
    ensures FailureCount(steps) == 0 <==> forall i :: 0 <= i < |steps| ==> steps[i].failures == 0
  {
    if steps != [] {
      var init := steps[..|steps| - 1];
      assert forall i :: 0 <= i < |init| ==> init[i] == steps[i];
      NoFailures(init);
    }
  }

  /** Counting one more step adds its increments. */
  lemma CountsStep(steps: seq<Step>, i: nat)
    requires i < |steps|
    ensures SuccessCount(steps[..i + 1]) == SuccessCount(steps[..i]) + steps[i].successes
    ensures FailureCount(steps[..i + 1]) == FailureCount(steps[..i]) + steps[i].failures
  {
    assert steps[..i + 1][..i] == steps[..i];
  }

  /** The per-file loop of `process_directory`. */
  method ProcessFiles(base: PPath, outputDir: PPath, files: seq<PPath>, process: PPath -> FileOutcome)
    returns (successful: nat, failed: nat, fileResults: seq<FileResult>)
    ensures var steps := StepsOf(base, outputDir, files, process);
      && fileResults == Entries(steps)
      && successful == SuccessCount(steps) && failed == FailureCount(steps)
  {
    ghost var steps := StepsOf(base, outputDir, files, process);
    successful, failed := 0, 0;
    fileResults := [];
    var i := 0;
    while i < |files|
      invariant 0 <= i <= |files|
      invariant |fileResults| == i && forall j :: 0 <= j < i ==> fileResults[j] == steps[j].entry
      invariant successful == SuccessCount(steps[..i]) && failed == FailureCount(steps[..i])
    {
      ghost var successful0, failed0 := successful, failed;
      var entry;
      successful, failed, entry := ProcessOne(base, outputDir, files[i], process, successful, failed);
      assert steps[i] == Step(entry, successful - successful0, failed - failed0);
      CountsStep(steps, i);
      fileResults := fileResults + [entry];
      i := i + 1;
    }
    assert steps[..i] == steps;
    assert fileResults == Entries(steps);
  }

  /** One round of that loop: the file is split, counted, and its entry
      made. */
  method ProcessOne(base: PPath, outputDir: PPath, pdfFile: PPath, process: PPath -> FileOutcome,
                    successful0: nat, failed0: nat)
    returns (successful: nat, failed: nat, entry: FileResult)
    ensures successful >= successful0 && failed >= failed0
    ensures Step(entry, successful - successful0, failed - failed0) == StepOf(base, outputDir, pdfFile, process(pdfFile))
  {
    successful, failed := successful0, failed0;
    var name := Str(pdfFile);
    var result := process(pdfFile);
    match result {
      case Raised(m) =>
        failed := failed + 1;
        entry := FileFailed(name, m);
      case Finished(ok, err, chapters) =>
        if ok {
          successful := successful + 1;
          var fileOutputDir := Child(outputDir, ParsePath(Stem(Name(pdfFile))));
          var rel := RelativeTo(fileOutputDir, base);
          if rel.Some? {
            entry := FileOk(name, chapters, Str(rel.value));
          } else {
            failed := failed + 1;
            entry := FileFailed(name, NotInSubpath(fileOutputDir, base));
          }
        } else {
          failed := failed + 1;
          entry := FileFailed(name, if err.Some? then err.value else UnknownError);
        }
    }
  }

  /** The report for `files`, written under `outputDir` inside `base`. */
  function ReportOf(inputDir: PPath, base: PPath, outputDir: PPath, files: seq<PPath>,
                    process: PPath -> FileOutcome): BatchReport
  {
    var steps := StepsOf(base, outputDir, files, process);
    BatchReport(Str(inputDir), Str(outputDir), |files|, SuccessCount(steps), FailureCount(steps), Entries(steps),
                FailureCount(steps) == 0)
  }

  /** Each file adds exactly one entry, naming it, and is counted at least
      once; the counters add up to the file count exactly when no file was
      double counted; the batch succeeds exactly when no failure was
      counted, that is when every entry is a success. */
  lemma ReportTallies(inputDir: PPath, base: PPath, outputDir: PPath, files: seq<PPath>,
                      process: PPath -> FileOutcome)
    ensures var r := ReportOf(inputDir, base, outputDir, files, process);
      && r.totalFiles == |r.fileResults| == |files|
      && r.totalFiles <= r.successful + r.failed
      && (r.successful + r.failed == r.totalFiles <==>
            forall i :: 0 <= i < |files| ==> !DoubleCounted(base, outputDir, files[i], process(files[i])))
      && (r.success <==> r.failed == 0)
      && (r.success <==> forall i :: 0 <= i < |files| ==> r.fileResults[i].FileOk?)
      && forall i :: 0 <= i < |files| ==> r.fileResults[i].file == Str(files[i])
  {
    var steps := StepsOf(base, outputDir, files, process);
    forall i | 0 <= i < |files|
      ensures 1 <= steps[i].successes + steps[i].failures <= 2
      ensures steps[i].successes + steps[i].failures == 1 <==> !DoubleCounted(base, outputDir, files[i], process(files[i]))
      ensures steps[i].failures == 0 <==> steps[i].entry.FileOk?
      ensures steps[i].entry.file == Str(files[i])
    {
      StepRules(base, outputDir, files[i], process(files[i]));
    }
    CountsCover(steps);
    NoFailures(steps);
  }

  /** Under a relative sub-directory of `base`, `relative_to` never raises. */
  lemma InsideBase(base: PPath, subdir: PPath, file: PPath)
    requires !subdir.absolute && WellFormed(file)
    ensures RelativeTo(FileOutputDir(Child(base, subdir), file), base).Some?
  {
    var stemPath := ParsePath(Stem(Name(file)));
    StemRelative(file);
    var rel := PPath(false, subdir.parts + stemPath.parts);
    assert (base.parts + subdir.parts) + stemPath.parts == base.parts + rel.parts;
    RelativeToChild(base, rel);
  }

  /** For the input directory '.' the default sub-directory is empty
      (`Path('.').name == ''`), so a file's recorded output directory is
      its bare stem. */
  lemma CurrentDirRecordsStem(base: PPath, file: PPath)
    requires WellFormed(file)
    ensures SubdirOf(ParsePath("."), None) == PPath(false, [])
    ensures RelativeTo(FileOutputDir(Child(base, SubdirOf(ParsePath("."), None)), file), base)
         == Some(ParsePath(Stem(Name(file))))
  {
    SplitNoSeparator(".", '/');
    SplitNoSeparator("", '/');
    assert KeptParts(["."]) == [];
    assert KeptParts([""]) == [];
    var stemPath := ParsePath(Stem(Name(file)));
    StemRelative(file);
    assert Child(base, PPath(false, [])) == base by { assert base.parts + [] == base.parts; }
    RelativeToChild(base, stemPath);
  }

  /** A file's stem never starts with '/'. */
  lemma StemRelative(file: PPath)
    requires WellFormed(file)
    ensures !ParsePath(Stem(Name(file))).absolute
  {
    var name := Name(file);
    var stem := Stem(name);
    if name != "" {
      assert IsPart(file.parts[|file.parts| - 1]);
      assert name[0] != '/';
    }
    var i := RFind(name, '.');
    if 0 < i < |name| - 1 {
      assert stem == name[..i];
    } else {
      assert stem == name;
    }
  }

  /** The PDF paths of a directory listing: `input_dir / name`. */
  function PdfPaths(inputDir: PPath, entries: seq<string>): (r: seq<PPath>)
    ensures |r| == |PdfGlob(entries)|
    ensures forall i :: 0 <= i < |r| ==> r[i] == Child(inputDir, ParsePath(PdfGlob(entries)[i]))
    ensures WellFormed(inputDir) ==> forall i :: 0 <= i < |r| ==> WellFormed(r[i])
  {
    var names := PdfGlob(entries);
    assert WellFormed(inputDir) ==> forall i :: 0 <= i < |names| ==> WellFormed(Child(inputDir, ParsePath(names[i]))) by {
      if WellFormed(inputDir) {
        forall i | 0 <= i < |names| ensures WellFormed(Child(inputDir, ParsePath(names[i]))) {
          ChildWellFormed(inputDir, ParsePath(names[i]));
        }
      }
    }
    seq(|names|, i requires 0 <= i < |names| => Child(inputDir, ParsePath(names[i])))
  }

  /** The sub-directory: the given one, or the input directory's name. */
  function SubdirOf(inputDir: PPath, outputSubdir: Option<string>): PPath {
    ParsePath(if outputSubdir.Some? then outputSubdir.value else Name(inputDir))
  }

  /** `process_directory` */
  function DirectorySpec(baseOutputDir: string, inputDir: string, dir: DirState, outputSubdir: Option<string>,
                         process: PPath -> FileOutcome): Result<BatchReport>
  {
    match dir
    case Missing => Err(DirMissing)
    case NotDir => Err(NotADirectory)
    case Dir(entries) =>
      if PdfGlob(entries) == [] then Err(NoPdfFiles)
      else
        var input := ParsePath(inputDir);
        var base := ParsePath(baseOutputDir);
        var outputDir := Child(base, SubdirOf(input, outputSubdir));
        Ok(ReportOf(input, base, outputDir, PdfPaths(input, entries), process))
  }

  /** A missing input, a path that is not a directory, and a directory
      without '.pdf' entries fail; otherwise every PDF is processed, into a
      sub-directory named after the input directory unless one is given,
      and the report's paths are in `pathlib`'s normal form. */
  lemma DirectoryRules(baseOutputDir: string, inputDir: string, dir: DirState, outputSubdir: Option<string>,
                       process: PPath -> FileOutcome)
    ensures var r := DirectorySpec(baseOutputDir, inputDir, dir, outputSubdir, process);
      && (r == Err(DirMissing) <==> dir.Missing?)
      && (r == Err(NotADirectory) <==> dir.NotDir?)
      && (r == Err(NoPdfFiles) <==> dir.Dir? && PdfGlob(dir.entries) == [])
      && (r.Ok? ==> && r.value.totalFiles == |PdfGlob(dir.entries)| >= 1
                    && r.value.inputDir == Str(ParsePath(inputDir))
                    && r.value.outputDir == Str(Child(ParsePath(baseOutputDir),
                         ParsePath(if outputSubdir.Some? then outputSubdir.value else Name(ParsePath(inputDir))))))
  {
  }

  /** With the default sub-directory or a relative one, no file is double
      counted: successes and failures add up to the file count. */
  lemma RelativeSubdirCountsOnce(baseOutputDir: string, inputDir: string, dir: DirState,
                                 outputSubdir: Option<string>, process: PPath -> FileOutcome)
    requires outputSubdir.Some? ==> outputSubdir.value == "" || outputSubdir.value[0] != '/'
    ensures var r := DirectorySpec(baseOutputDir, inputDir, dir, outputSubdir, process);
      r.Ok? ==> r.value.successful + r.value.failed == r.value.totalFiles
  {
    if dir.Dir? && PdfGlob(dir.entries) != [] {
      var input := ParsePath(inputDir);
      var base := ParsePath(baseOutputDir);
      var subdir := SubdirOf(input, outputSubdir);
      if outputSubdir.None? {
        var name := Name(input);
        assert name != "" ==> name[0] != '/' by {
          if name != "" {
            assert IsPart(input.parts[|input.parts| - 1]);
          }
        }
      }
      var outputDir := Child(base, subdir);
      var files := PdfPaths(input, dir.entries);
      forall i | 0 <= i < |files| ensures !DoubleCounted(base, outputDir, files[i], process(files[i])) {
        InsideBase(base, subdir, files[i]);
      }
      ReportTallies(input, base, outputDir, files, process);
    }
  }

  /** As written, an absolute sub-directory outside the base counts a file
      the splitter split as a success and as a failure: with base
      'batch_output' and sub-directory '/tmp/out', one finished file gives
      one success, one failure, a failure entry and an unsuccessful batch. */
  lemma AbsoluteSubdirDoubleCounts(process: PPath -> FileOutcome)
    requires forall f :: process(f) == Finished(true, None, 3)
    ensures DirectorySpec("batch_output", "in", Dir(["a.pdf"]), Some("/tmp/out"), process)
         == Ok(BatchReport("in", "/tmp/out", 1, 1, 1,
                           [FileFailed("in/a.pdf", NotInSubpath(PPath(true, ["tmp", "out", "a"]),
                                                                PPath(false, ["batch_output"])))],
                           false))
  {
    ExampleDirectory(process);
    ExampleReport(process);
  }

  /** The example runs over one file, `in/a.pdf`, into '/tmp/out'. */
  lemma ExampleDirectory(process: PPath -> FileOutcome)
    ensures DirectorySpec("batch_output", "in", Dir(["a.pdf"]), Some("/tmp/out"), process)
         == Ok(ReportOf(PPath(false, ["in"]), PPath(false, ["batch_output"]), PPath(true, ["tmp", "out"]),
                        [PPath(false, ["in", "a.pdf"])], process))
  {
    ParseOnePart("batch_output");
    ParseOnePart("in");
    ExampleOutputDir();
    ExampleGlob();
  }

  /** The example's report: one entry, counted twice. */
  lemma ExampleReport(process: PPath -> FileOutcome)
    requires forall f :: process(f) == Finished(true, None, 3)
    ensures ReportOf(PPath(false, ["in"]), PPath(false, ["batch_output"]), PPath(true, ["tmp", "out"]),
                     [PPath(false, ["in", "a.pdf"])], process)
         == BatchReport("in", "/tmp/out", 1, 1, 1,
                        [FileFailed("in/a.pdf", NotInSubpath(PPath(true, ["tmp", "out", "a"]),
                                                             PPath(false, ["batch_output"])))],
                        false)
  {
    var base := PPath(false, ["batch_output"]);
    var outputDir := PPath(true, ["tmp", "out"]);
    var file := PPath(false, ["in", "a.pdf"]);
    ExampleSteps(base, outputDir, file, process);
    ExampleOutputDir();
    assert Str(PPath(false, ["in"])) == "in";
  }

  lemma ExampleSteps(base: PPath, outputDir: PPath, file: PPath, process: PPath -> FileOutcome)
    requires base == PPath(false, ["batch_output"]) && outputDir == PPath(true, ["tmp", "out"])
    requires file == PPath(false, ["in", "a.pdf"]) && process(file) == Finished(true, None, 3)
    ensures var steps := StepsOf(base, outputDir, [file], process);
      && SuccessCount(steps) == 1 && FailureCount(steps) == 1
      && Entries(steps) == [FileFailed("in/a.pdf", NotInSubpath(PPath(true, ["tmp", "out", "a"]), base))]
  {
    ExampleStep(base, outputDir, file, process(file));
    var steps := StepsOf(base, outputDir, [file], process);
    assert steps == [steps[0]];
    CountsOne(steps[0]);
  }

  /** The counters and entries of a single step. */
  lemma CountsOne(s: Step)
    ensures SuccessCount([s]) == s.successes && FailureCount([s]) == s.failures && Entries([s]) == [s.entry]
  {
    assert [s][..0] == [];
  }

  /** The example's sub-directory, parsed and printed. */
  lemma ExampleOutputDir()
    ensures ParsePath("/tmp/out") == PPath(true, ["tmp", "out"])
    ensures Str(PPath(true, ["tmp", "out"])) == "/tmp/out"
  {
    ParseAbsoluteTwo("tmp", "out");
    assert "/" + "tmp" + "/" + "out" == "/tmp/out";
    JoinTwo("tmp", "out", "/");
    assert "/" + ("tmp" + "/" + "out") == "/tmp/out";
  }

  /** The example's directory holds one PDF, `in/a.pdf`. */
  lemma ExampleGlob()
    ensures PdfPaths(PPath(false, ["in"]), ["a.pdf"]) == [PPath(false, ["in", "a.pdf"])]
  {
    OnePdfPath("in", "a.pdf");
  }

  /** A directory `dir` listing only the PDF `name` yields the one path
      `dir/name`. */
  lemma OnePdfPath(dir: string, name: string)
    requires IsPart(name) && EndsWith(name, ".pdf")
    ensures PdfPaths(PPath(false, [dir]), [name]) == [PPath(false, [dir, name])]
  {
    var e := [name];
    assert e[..0] == [];
    assert PdfGlob(e) == [name];
    ParseOnePart(name);
    var paths := PdfPaths(PPath(false, [dir]), e);
    assert [dir] + [name] == [dir, name];
    assert |paths| == 1 && paths[0] == PPath(false, [dir, name]);
  }

  /** A single part parses to a relative path of that part. */
  lemma ParseOnePart(s: string)
    requires IsPart(s)
    ensures ParsePath(s) == PPath(false, [s])
  {
    SplitNoSeparator(s, '/');
  }

  /** '/a/b' parses to the absolute path of parts `a`, `b`. */
  lemma ParseAbsoluteTwo(a: string, b: string)
    requires IsPart(a) && IsPart(b)
    ensures ParsePath("/" + a + "/" + b) == PPath(true, [a, b])
  {
    var s := "/" + a + "/" + b;
    SplitNoSeparator(b, '/');
    SplitAfterPiece(a, '/', b);
    SplitAfterPiece("", '/', a + "/" + b);
    assert "" + ['/'] + (a + ['/'] + b) == s;
    assert Split(s, '/') == [""] + [a, b];
    KeptPartsOfParts([a, b]);
  }

  /** The example's file, split with success, is counted twice. */
  lemma ExampleStep(base: PPath, outputDir: PPath, file: PPath, outcome: FileOutcome)
    requires base == PPath(false, ["batch_output"]) && outputDir == PPath(true, ["tmp", "out"])
    requires file == PPath(false, ["in", "a.pdf"]) && outcome == Finished(true, None, 3)
    ensures StepOf(base, outputDir, file, outcome)
         == Step(FileFailed("in/a.pdf", NotInSubpath(PPath(true, ["tmp", "out", "a"]), base)), 1, 1)
  {
    ExampleFileOutputDir();
    assert RelativeTo(PPath(true, ["tmp", "out", "a"]), base) == None;
    JoinTwo("in", "a.pdf", "/");
    assert Str(file) == "in/a.pdf";
  }

  /** The example's file is written into '/tmp/out/a'. */
  lemma ExampleFileOutputDir()
    ensures FileOutputDir(PPath(true, ["tmp", "out"]), PPath(false, ["in", "a.pdf"])) == PPath(true, ["tmp", "out", "a"])
  {
    RFindAt("a.pdf", '.', 1);
    assert "a.pdf"[..1] == "a";
    ParseOnePart("a");
  }

  /** Joining two pieces puts the separator between them. */
  lemma JoinTwo(a: string, b: string, sep: string)
    ensures Join([a, b], sep) == a + sep + b
  {
    assert [a, b][1..] == [b];
  }

  /** One pass of the loop body as intended: the file is counted as a
      success only once `relative_to` has succeeded, so a raise there
      counts it once, as a failure. */
  function IntendedStepOf(base: PPath, outputDir: PPath, file: PPath, outcome: FileOutcome): Step {
    var s := StepOf(base, outputDir, file, outcome);
    if DoubleCounted(base, outputDir, file, outcome) then Step(s.entry, 0, 1) else s
  }

  function IntendedStepsOf(base: PPath, outputDir: PPath, files: seq<PPath>, process: PPath -> FileOutcome)
    : (r: seq<Step>)
    ensures |r| == |files|
    ensures forall i :: 0 <= i < |files| ==> r[i] == IntendedStepOf(base, outputDir, files[i], process(files[i]))
  {
    seq(|files|, i requires 0 <= i < |files| => IntendedStepOf(base, outputDir, files[i], process(files[i])))
  }

  /** The report as intended. */
  function IntendedReportOf(inputDir: PPath, base: PPath, outputDir: PPath, files: seq<PPath>,
                            process: PPath -> FileOutcome): BatchReport
  {
    var steps := IntendedStepsOf(base, outputDir, files, process);
    BatchReport(Str(inputDir), Str(outputDir), |files|, SuccessCount(steps), FailureCount(steps), Entries(steps),
                FailureCount(steps) == 0)
  }

  /** As intended, the report has the same entries, each file is counted
      exactly once, and the batch succeeds exactly when every entry is a
      success. */
  lemma IntendedTallies(inputDir: PPath, base: PPath, outputDir: PPath, files: seq<PPath>,
                        process: PPath -> FileOutcome)
    ensures var r := IntendedReportOf(inputDir, base, outputDir, files, process);
      && r.fileResults == ReportOf(inputDir, base, outputDir, files, process).fileResults
      && r.successful + r.failed == r.totalFiles == |files|
      && (r.success <==> forall i :: 0 <= i < |files| ==> r.fileResults[i].FileOk?)
      && forall i :: 0 <= i < |files| ==> r.fileResults[i].file == Str(files[i])
  {
    var steps := IntendedStepsOf(base, outputDir, files, process);
    forall i | 0 <= i < |files|
      ensures steps[i].successes + steps[i].failures == 1
      ensures steps[i].failures == 0 <==> steps[i].entry.FileOk?
      ensures steps[i].entry == StepOf(base, outputDir, files[i], process(files[i])).entry
      ensures steps[i].entry.file == Str(files[i])
    {
      StepRules(base, outputDir, files[i], process(files[i]));
    }
    CountsCover(steps);
    NoFailures(steps);
  }

  // ---------------------------------------------------------------------
  // a list of files

  /** `Path(f).suffix.lower() == '.pdf'` */
  predicate IsPdfFile(f: string) {
    IsPdfName(Name(ParsePath(f)))
  }

  /** `valid_files`: the listed paths that exist and end in '.pdf' in any
      case. */
  function ValidFiles(fileList: seq<string>, fileExists: string -> bool): (r: seq<string>)
    ensures |r| <= |fileList|
    ensures forall i :: 0 <= i < |r| ==> fileExists(r[i]) && IsPdfFile(r[i])
  {
    if fileList == [] then []
    else
      var f := fileList[|fileList| - 1];
      ValidFiles(fileList[..|fileList| - 1], fileExists) + (if fileExists(f) && IsPdfFile(f) then [f] else [])
  }

  /** A file is valid exactly when it is listed, exists and is a PDF. */
  lemma {:induction false} ValidFilesMembers(fileList: seq<string>, fileExists: string -> bool, f: string)
    ensures f in ValidFiles(fileList, fileExists) <==> f in fileList && fileExists(f) && IsPdfFile(f)
  {
    if fileList != [] {
      var init := fileList[..|fileList| - 1];
      var last := fileList[|fileList| - 1];
      var tail := if fileExists(last) && IsPdfFile(last) then [last] else [];
      assert ValidFiles(fileList, fileExists) == ValidFiles(init, fileExists) + tail;
      InLastOrInit(fileList, f);
      ValidFilesMembers(init, fileExists, f);
    }
  }

  lemma InLastOrInit<T>(xs: seq<T>, x: T)
    requires xs != []
    ensures x in xs <==> x in xs[..|xs| - 1] || x == xs[|xs| - 1]
  {
    assert xs == xs[..|xs| - 1] + [xs[|xs| - 1]];
  }

  /** `process_file_list` as written: after validation it processes a fresh
      temporary directory into which nothing was copied. */
  function FileListSpec(baseOutputDir: string, fileList: seq<string>, fileExists: string -> bool,
                        tempDir: string, outputSubdir: string, process: PPath -> FileOutcome): Result<BatchReport>
  {
    if fileList == [] then Err(EmptyList)
    else if ValidFiles(fileList, fileExists) == [] then Err(NoValidFiles)
    else DirectorySpec(baseOutputDir, tempDir, Dir([]), Some(outputSubdir), process)
  }

  /** So as written a list with a valid PDF always ends in "no PDF files",
      and none of the listed files is processed. */
  lemma FileListNeverProcesses(baseOutputDir: string, fileList: seq<string>, fileExists: string -> bool,
                               tempDir: string, outputSubdir: string, process: PPath -> FileOutcome)
    requires exists f :: f in fileList && fileExists(f) && IsPdfFile(f)
    ensures FileListSpec(baseOutputDir, fileList, fileExists, tempDir, outputSubdir, process) == Err(NoPdfFiles)
  {
    var f :| f in fileList && fileExists(f) && IsPdfFile(f);
    ValidFilesMembers(fileList, fileExists, f);
  }

  /** `[Path(f) for f in fs]` */
  function PathsOf(fs: seq<string>): (r: seq<PPath>)
    ensures |r| == |fs| && forall i :: 0 <= i < |fs| ==> r[i] == ParsePath(fs[i])
  {
    seq(|fs|, i requires 0 <= i < |fs| => ParsePath(fs[i]))
  }

  /** `process_file_list` as intended: the valid files, as paths, are
      processed as a directory's PDFs are, with the intended tallies. */
  function FileListIntended(baseOutputDir: string, fileList: seq<string>, fileExists: string -> bool,
                            tempDir: string, outputSubdir: string, process: PPath -> FileOutcome)
    : Result<BatchReport>
  {
    if fileList == [] then Err(EmptyList)
    else
      var valid := ValidFiles(fileList, fileExists);
      if valid == [] then Err(NoValidFiles)
      else
        var base := ParsePath(baseOutputDir);
        Ok(IntendedReportOf(ParsePath(tempDir), base, Child(base, ParsePath(outputSubdir)), PathsOf(valid), process))
  }

  /** The entries of `rs` are for exactly the valid files of the list. */
  predicate CoversValid(rs: seq<FileResult>, fileList: seq<string>, fileExists: string -> bool) {
    && (forall i :: 0 <= i < |rs| ==>
          exists f :: f in fileList && fileExists(f) && IsPdfFile(f) && rs[i].file == Str(ParsePath(f)))
    && (forall f :: f in fileList && fileExists(f) && IsPdfFile(f) ==>
          exists i :: 0 <= i < |rs| && rs[i].file == Str(ParsePath(f)))
  }

  lemma ValidCovered(fileList: seq<string>, fileExists: string -> bool, rs: seq<FileResult>)
    requires |rs| == |ValidFiles(fileList, fileExists)|
    requires forall i :: 0 <= i < |rs| ==> rs[i].file == Str(ParsePath(ValidFiles(fileList, fileExists)[i]))
    ensures CoversValid(rs, fileList, fileExists)
  {
    var valid := ValidFiles(fileList, fileExists);
    forall i | 0 <= i < |rs|
      ensures exists f :: f in fileList && fileExists(f) && IsPdfFile(f) && rs[i].file == Str(ParsePath(f))
    {
      var f := valid[i];
      ValidFilesMembers(fileList, fileExists, f);
      assert f in fileList && fileExists(f) && IsPdfFile(f) && rs[i].file == Str(ParsePath(f));
    }
    forall g | g in fileList && fileExists(g) && IsPdfFile(g)
      ensures exists i :: 0 <= i < |rs| && rs[i].file == Str(ParsePath(g))
    {
      ValidFilesMembers(fileList, fileExists, g);
      var i :| 0 <= i < |valid| && valid[i] == g;
      assert 0 <= i < |rs| && rs[i].file == Str(ParsePath(g));
    }
  }

  /** Processed as intended, the run succeeds with one entry for each valid
      file and for nothing else, and each file is counted exactly once. */
  lemma FileListIntendedProcessesValid(baseOutputDir: string, fileList: seq<string>, fileExists: string -> bool,
                                       tempDir: string, outputSubdir: string, process: PPath -> FileOutcome)
    requires exists f :: f in fileList && fileExists(f) && IsPdfFile(f)
    ensures var r := FileListIntended(baseOutputDir, fileList, fileExists, tempDir, outputSubdir, process);
      && r.Ok?
      && r.value.successful + r.value.failed == r.value.totalFiles == |r.value.fileResults|
      && CoversValid(r.value.fileResults, fileList, fileExists)
  {
    var f :| f in fileList && fileExists(f) && IsPdfFile(f);
    ValidFilesMembers(fileList, fileExists, f);
    FileListIntendedCovers(baseOutputDir, fileList, fileExists, tempDir, outputSubdir, process);
  }

  lemma FileListIntendedCovers(baseOutputDir: string, fileList: seq<string>, fileExists: string -> bool,
                               tempDir: string, outputSubdir: string, process: PPath -> FileOutcome)
    requires ValidFiles(fileList, fileExists) != []
    ensures var r := FileListIntended(baseOutputDir, fileList, fileExists, tempDir, outputSubdir, process);
      && r.Ok?
      && r.value.successful + r.value.failed == r.value.totalFiles == |r.value.fileResults|
      && CoversValid(r.value.fileResults, fileList, fileExists)
  {
    var base := ParsePath(baseOutputDir);
    var outputDir := Child(base, ParsePath(outputSubdir));
    FileListIntendedReport(baseOutputDir, fileList, fileExists, tempDir, outputSubdir, process);
    IntendedCoversValid(ParsePath(tempDir), base, outputDir, fileList, fileExists, process);
  }

  /** With a valid file, the intended run gives the intended report. */
  lemma FileListIntendedReport(baseOutputDir: string, fileList: seq<string>, fileExists: string -> bool,
                               tempDir: string, outputSubdir: string, process: PPath -> FileOutcome)
    requires ValidFiles(fileList, fileExists) != []
    ensures var base := ParsePath(baseOutputDir);
      FileListIntended(baseOutputDir, fileList, fileExists, tempDir, outputSubdir, process)
      == Ok(IntendedReportOf(ParsePath(tempDir), base, Child(base, ParsePath(outputSubdir)),
                             PathsOf(ValidFiles(fileList, fileExists)), process))
  {
  }

  lemma IntendedCoversValid(inputDir: PPath, base: PPath, outputDir: PPath, fileList: seq<string>,
                            fileExists: string -> bool, process: PPath -> FileOutcome)
    ensures var r := IntendedReportOf(inputDir, base, outputDir, PathsOf(ValidFiles(fileList, fileExists)), process);
      && r.successful + r.failed == r.totalFiles == |r.fileResults|
      && CoversValid(r.fileResults, fileList, fileExists)
  {
    var files := PathsOf(ValidFiles(fileList, fileExists));
    IntendedTallies(inputDir, base, outputDir, files, process);
    ValidCovered(fileList, fileExists, IntendedReportOf(inputDir, base, outputDir, files, process).fileResults);
  }

  class PDFBatchProcessor {
    const baseOutputDir: string

    /** `__init__`. */
    constructor (baseOutputDir: string)
      ensures this.baseOutputDir == baseOutputDir
    {
      this.baseOutputDir := baseOutputDir;
    }

    /** `process_directory`. */
    method ProcessDirectory(inputDir: string, dir: DirState, outputSubdir: Option<string>,
                            process: PPath -> FileOutcome)
      returns (r: Result<BatchReport>)
      ensures r == DirectorySpec(baseOutputDir, inputDir, dir, outputSubdir, process)
    {
      if dir.Missing? {
        return Err(DirMissing);
      }
      if dir.NotDir? {
        return Err(NotADirectory);
      }
      var input := ParsePath(inputDir);
      var pdfFiles := PdfPaths(input, dir.entries);
      if pdfFiles == [] {
        return Err(NoPdfFiles);
      }
      var subdir := if outputSubdir.Some? then outputSubdir.value else Name(input);
      var base := ParsePath(baseOutputDir);
      var outputDir := Child(base, ParsePath(subdir));
      var successful, failed, fileResults := ProcessFiles(base, outputDir, pdfFiles, process);
      r := Ok(BatchReport(Str(input), Str(outputDir), |pdfFiles|, successful, failed, fileResults, failed == 0));
    }

    /** `process_file_list` as written; `tempDir` is the fresh directory
        `tempfile.mkdtemp()` creates. */
    method ProcessFileList(fileList: seq<string>, fileExists: string -> bool, tempDir: string,
                           outputSubdir: string, process: PPath -> FileOutcome)
      returns (r: Result<BatchReport>)
      ensures r == FileListSpec(baseOutputDir, fileList, fileExists, tempDir, outputSubdir, process)
    {
      if fileList == [] {
        return Err(EmptyList);
      }
      var validFiles: seq<string> := [];
      var i := 0;
      while i < |fileList|
        invariant 0 <= i <= |fileList|
        invariant validFiles == ValidFiles(fileList[..i], fileExists)
      {
        var path := fileList[i];
        assert fileList[..i + 1][..i] == fileList[..i];
        if fileExists(path) && IsPdfFile(path) {
          validFiles := validFiles + [path];
        }
        i := i + 1;
      }
      assert fileList[..i] == fileList;
      if validFiles == [] {
        return Err(NoValidFiles);
      }
      r := ProcessDirectory(tempDir, Dir([]), Some(outputSubdir), process);
    }
  }
}
