/**
 * The sprite builder itself (`Sprites` in index.js): it resolves the source
 * list, runs one layout pass (two with high-density output) that appends one
 * record per image, and emits one stylesheet rule per icon.
 *
 * The image library and the filesystem are replaced by values: `disk` maps
 * the path of each source image present to its pixel size, `listing` is what
 * reading the source directory returns, and the width of the written
 * high-density sheet is a parameter. What a run writes or removes is recorded,
 * in order, in `effects`.
 */
module Builder {
  import opened Wrappers
  import opened Errors
  import opened Paths
  import opened Patterns
  import opened Ordering
  import opened Sources
  import opened Layout
  import opened Styles
  import opened Specs

  /** One change a run makes to the filesystem. */
  datatype Effect =
    | ResetTempDir(path: string)   // empty and remove the scratch directory if present, then create it
    | WriteSprite(path: string)    // write a composite sheet
    | RemoveTempDir(path: string)  // empty and remove the scratch directory
    | WriteStylesheet(path: string, rules: seq<Rule>)

  class Sprites {
    var appendRight: bool
    var retina: bool
    var retinaDestPath: string
    var sourceDir: string
    var retinaSourceDir: string
    var destPath: string
    var lessPath: string
    var relativePath: string
    var spacing: int
    var files: seq<IconRecord>
    var retinaFiles: seq<IconRecord>
    var renderRetina: bool
    var tmpOutput: string
    var effects: seq<Effect>

    /** A builder set up from the spec file's flags; paths and lists are filled in by `CreateSprite`. */
    constructor (args: Args)
      ensures appendRight == args.appendRight && retina == args.retina
      ensures retinaDestPath == args.retinaDestPath
      ensures files == [] && retinaFiles == [] && !renderRetina && effects == []
    {
      appendRight := args.appendRight;
      retina := args.retina;
      retinaDestPath := args.retinaDestPath;
      sourceDir, retinaSourceDir, destPath, lessPath, relativePath, tmpOutput := "", "", "", "", "", "";
      spacing := 0;
      files, retinaFiles := [], [];
      renderRetina := false;
      effects := [];
    }

    /** The directory the current pass reads images from. */
    function PassDir(): string
      reads this
    {
      if renderRetina then retinaSourceDir else sourceDir
    }

    /** The record list the current pass appends to. */
    function Pass(): seq<IconRecord>
      reads this
    {
      if renderRetina then retinaFiles else files
    }

    /** The record list the current pass leaves alone. */
    function Other(): seq<IconRecord>
      reads this
    {
      if renderRetina then files else retinaFiles
    }

    /**
     * `getSourceFiles`: keeps the PNG entries by basename; a "*" as first entry
     * discards what was collected and takes the matching directory entries instead.
     */
    method GetSourceFiles(entries: seq<string>, listing: seq<string>) returns (sourceFiles: seq<string>)
      ensures sourceFiles == SourceFiles(entries, listing, destPath)
    {
      sourceFiles := [];
      var i := 0;
      while i < |entries|
        invariant 0 <= i <= |entries|
        invariant sourceFiles == Collected(entries, listing, destPath, i)
      {
        var file := Basename(entries[i]);
        CollectedStep(entries, listing, destPath, i);
        if EndsWithPng(file) && file != destPath {
          sourceFiles := sourceFiles + [file];
        } else if file == "*" && i == 0 {
          sourceFiles := ScanListing(listing);
        }
        i := i + 1;
      }
      CollectedAll(entries, listing, destPath);
    }

    /** The callback over the directory listing: keeps, in order, the entries matching `/.png/i`. */
    static method ScanListing(listing: seq<string>) returns (found: seq<string>)
      ensures found == Wildcard(listing)
    {
      found := [];
      var j := 0;
      while j < |listing|
        invariant 0 <= j <= |listing|
        invariant found == Wildcard(listing[..j])
      {
        WildcardStep(listing, j);
        if ContainsPng(listing[j]) {
          found := found + [listing[j]];
        }
        j := j + 1;
      }
      assert listing[..j] == listing;
    }

    /**
     * `processFile`: looks the image up in the current pass's directory and appends
     * its record, padded by `spacing`, to the current pass's list; a missing image
     * is an error and appends nothing.
     */
    method ProcessFile(fileName: string, disk: map<string, Size>) returns (err: Option<Error>)
      modifies this`files, this`retinaFiles
      ensures var path := SourcePath(PassDir(), fileName);
              if path in disk then err == None && Pass() == old(Pass()) + [Padded(fileName, disk[path], spacing)]
              else err == Some(SourceMissing(path)) && Pass() == old(Pass())
      ensures Other() == old(Other())
    {
      var dir := if renderRetina then retinaSourceDir else sourceDir;
      var filePath := SourcePath(dir, fileName);
      if filePath !in disk {
        return Some(SourceMissing(filePath));
      }
      var data := Padded(fileName, disk[filePath], spacing);
      if renderRetina {
        retinaFiles := retinaFiles + [data];
      } else {
        files := files + [data];
      }
      err := None;
    }

    /**
     * `combine`: processes the names strictly one after another, in the given
     * order, and stops at the first missing image.
     */
    method Combine(names: seq<string>, disk: map<string, Size>) returns (err: Option<Error>)
      modifies this`files, this`retinaFiles
      ensures var k := FirstMissing(PassDir(), names, disk);
              && Pass() == old(Pass()) + Records(PassDir(), names[..k], disk, spacing)
              && err == if k < |names| then Some(SourceMissing(SourcePath(PassDir(), names[k]))) else None
      ensures Other() == old(Other())
    {
      var dir := PassDir();
      ghost var start := Pass();
      var i := 0;
      while i < |names|
        invariant 0 <= i <= |names|
        invariant forall j :: 0 <= j < i ==> SourcePath(dir, names[j]) in disk
        invariant Pass() == start + Records(dir, names[..i], disk, spacing)
        invariant Other() == old(Other())
      {
        err := ProcessFile(names[i], disk);
        if err.Some? {
          FirstMissingAt(dir, names, disk, i);
          return;
        }
        RecordsStep(dir, names, disk, spacing, i);
        i := i + 1;
      }
      FirstMissingAt(dir, names, disk, i);
      assert names[..i] == names;
      err := None;
    }

    /** `rule` is the stylesheet rule of icon `k`, with the sheet URLs and background size given. */
    ghost predicate Describes(rule: Rule, k: nat, spriteFile: string, retinaSpritePath: string, backgroundSize: int)
      reads this`files, this`retinaFiles, this`spacing, this`appendRight, this`retina
      requires k < |files| && (retina ==> k < |retinaFiles|)
    {
      && rule.name == files[k].name
      && rule.height == files[k].size.height - spacing
      && rule.width == files[k].size.width
      && rule.url == spriteFile
      && (rule.x, rule.y) == Position(files, k, appendRight)
      && rule.retina.Some? == retina
      && (retina ==>
            && rule.retina.value.url == retinaSpritePath
            && (rule.retina.value.x, rule.retina.value.y) == RetinaPosition(retinaFiles, k, appendRight)
            && rule.retina.value.backgroundSize == backgroundSize)
    }

    /**
     * `writeStyles`: one rule per standard record, in order. Each rule shows the
     * cursor before it advances; with high-density output it also carries the
     * high-density cursor, advanced independently from the record at the same index.
     */
    method WriteStyles(retinaSheetWidth: int) returns (rules: seq<Rule>)
      requires retina ==> |retinaFiles| >= |files|
      ensures |rules| == |files|
      ensures forall i :: 0 <= i < |files| ==>
                Describes(rules[i], i, SheetUrl(relativePath, Basename(destPath)),
                          SheetUrl(relativePath, Basename(retinaDestPath)), BackgroundSize(retinaSheetWidth))
    {
      var spriteFile := SheetUrl(relativePath, Basename(destPath));
      var retinaSpritePath := "";
      var backgroundSize := 0;
      if retina {
        retinaSpritePath := SheetUrl(relativePath, Basename(retinaDestPath));
        backgroundSize := BackgroundSize(retinaSheetWidth);
      }
      var x, y, x2x, y2x := 0, 0, 0, 0.0;
      rules := [];
      var i := 0;
      while i < |files|
        invariant 0 <= i <= |files| && |rules| == i
        invariant (x, y) == Position(files, i, appendRight)
        invariant retina ==> (x2x, y2x) == RetinaPosition(retinaFiles, i, appendRight)
        invariant forall k :: 0 <= k < i ==> Describes(rules[k], k, spriteFile, retinaSpritePath, backgroundSize)
      {
        var retinaQuery := None;
        if retina {
          retinaQuery := Some(RetinaBlock(retinaSpritePath, x2x, y2x, backgroundSize));
        }
        rules := rules + [Rule(files[i].name, files[i].size.height - spacing, files[i].size.width, spriteFile, x, y, retinaQuery)];
        PositionStep(files, i, appendRight);
        if appendRight {
          x := x - files[i].size.width;
        } else {
          y := y - files[i].size.height;
        }
        if retina && appendRight {
          RetinaPositionStep(retinaFiles, i, appendRight);
          x2x := x2x - retinaFiles[i].size.width;
        } else if retina {
          RetinaPositionStep(retinaFiles, i, appendRight);
          y2x := y2x - (retinaFiles[i].size.height as real) / 2.0;
        }
        i := i + 1;
      }
    }

    /**
     * The settings `createSprite` makes before it looks at any image: the source
     * directories when a directory is given, the destinations, the URL prefix and
     * the spacing with their defaults, and empty record lists.
     */
    method Configure(dir: string, sprite: string, less: string, httpPath: Option<string>, spacingArg: Option<int>)
      modifies this`sourceDir, this`retinaSourceDir, this`destPath, this`lessPath, this`relativePath
      modifies this`spacing, this`files, this`retinaFiles, this`renderRetina
      ensures sourceDir == (if dir != "" then dir else old(sourceDir))
      ensures retinaSourceDir == (if dir != "" then dir + "2x" else old(retinaSourceDir))
      ensures destPath == sprite && lessPath == less
      ensures relativePath == (if Given(httpPath) then httpPath.value else "/images")
      ensures spacing == (if spacingArg.Some? then spacingArg.value else 0)
      ensures files == [] && retinaFiles == [] && !renderRetina
    {
      if dir != "" {
        sourceDir := dir;
        retinaSourceDir := dir + "2x";
      }
      destPath := sprite;
      lessPath := less;
      relativePath := if Given(httpPath) then httpPath.value else "/images";
      spacing := if spacingArg.Some? then spacingArg.value else 0;
      files := [];
      retinaFiles := [];
      renderRetina := false;
    }

    /** Appends one change to the record of what the run did. */
    method Log(e: Effect)
      modifies this`effects
      ensures effects == old(effects) + [e]
    {
      effects := effects + [e];
    }

    /**
     * The standard pass of `createSprite`: resets the scratch directory under the
     * source directory, processes the names in order and, when none is missing,
     * writes the standard sheet.
     */
    method StandardSheet(names: seq<string>, disk: map<string, Size>) returns (err: Option<Error>)
      requires files == [] && !renderRetina
      modifies this`files, this`retinaFiles, this`tmpOutput, this`effects
      ensures tmpOutput == sourceDir + "/.images" && retinaFiles == old(retinaFiles)
      ensures var k := FirstMissing(sourceDir, names, disk);
              && files == Records(sourceDir, names[..k], disk, spacing)
              && err == (if k < |names| then Some(SourceMissing(SourcePath(sourceDir, names[k]))) else None)
              && (k < |names| ==> effects == old(effects) + [ResetTempDir(tmpOutput)])
              && (k == |names| ==> effects == old(effects) + [ResetTempDir(tmpOutput)] + [WriteSprite(destPath)])
    {
      tmpOutput := sourceDir + "/.images";
      Log(ResetTempDir(tmpOutput));
      err := Combine(names, disk);
      if err.None? {
        Log(WriteSprite(destPath));
      }
    }

    /**
     * The high-density pass of `createSprite`: switches to the high-density source
     * directory, processes the same names in order and, when none is missing,
     * writes the high-density sheet.
     */
    method RetinaSheet(names: seq<string>, disk: map<string, Size>) returns (err: Option<Error>)
      requires retinaFiles == []
      modifies this`files, this`retinaFiles, this`renderRetina, this`effects
      ensures renderRetina && files == old(files)
      ensures var k := FirstMissing(retinaSourceDir, names, disk);
              && retinaFiles == Records(retinaSourceDir, names[..k], disk, spacing)
              && err == (if k < |names| then Some(SourceMissing(SourcePath(retinaSourceDir, names[k]))) else None)
              && (k < |names| ==> effects == old(effects))
              && (k == |names| ==> effects == old(effects) + [WriteSprite(retinaDestPath)])
    {
      renderRetina := true;
      err := Combine(names, disk);
      if err.None? {
        Log(WriteSprite(retinaDestPath));
      }
    }

    /**
     * Both layout passes: the standard one, then, after it completes and only with
     * high-density output on, the high-density one. The first missing image is the error.
     */
    method Passes(names: seq<string>, disk: map<string, Size>) returns (err: Option<Error>)
      requires files == [] && retinaFiles == [] && !renderRetina
      modifies this`files, this`retinaFiles, this`renderRetina, this`tmpOutput, this`effects
      ensures var k, k2 := FirstMissing(sourceDir, names, disk), FirstMissing(retinaSourceDir, names, disk);
              var sheets := old(effects) + [ResetTempDir(tmpOutput)] + [WriteSprite(destPath)];
              && tmpOutput == sourceDir + "/.images"
              && renderRetina == (k == |names| && retina)
              && files == Records(sourceDir, names[..k], disk, spacing)
              && retinaFiles == (if k == |names| && retina then Records(retinaSourceDir, names[..k2], disk, spacing) else [])
              && (k < |names| ==>
                    err == Some(SourceMissing(SourcePath(sourceDir, names[k]))) &&
                    effects == old(effects) + [ResetTempDir(tmpOutput)])
              && (k == |names| && retina && k2 < |names| ==>
                    err == Some(SourceMissing(SourcePath(retinaSourceDir, names[k2]))) &&
                    effects == sheets)
              && (k == |names| && (retina ==> k2 == |names|) ==>
                    err.None? &&
                    effects == if retina then sheets + [WriteSprite(retinaDestPath)] else sheets)
    {
      err := StandardSheet(names, disk);
      if err.Some? {
        return;
      }
      if retina {
        err := RetinaSheet(names, disk);
      }
    }

    /**
     * The end of a run whose passes both completed: removes the scratch directory,
     * then writes the stylesheet with one rule per standard record.
     */
    method Finish(retinaSheetWidth: int) returns (rules: seq<Rule>)
      requires retina ==> |retinaFiles| >= |files|
      modifies this`effects
      ensures effects == old(effects) + [RemoveTempDir(tmpOutput)] + [WriteStylesheet(lessPath, rules)]
      ensures |rules| == |files|
      ensures forall i :: 0 <= i < |files| ==>
                Describes(rules[i], i, SheetUrl(relativePath, Basename(destPath)),
                          SheetUrl(relativePath, Basename(retinaDestPath)), BackgroundSize(retinaSheetWidth))
    {
      Log(RemoveTempDir(tmpOutput));
      rules := WriteStyles(retinaSheetWidth);
      Log(WriteStylesheet(lessPath, rules));
    }

    /**
     * What a run over the sorted, non-empty `names` reports and leaves behind, given
     * the effects recorded before it (`before`). With `k` the first name missing from
     * the source directory and `k2` the first missing from the high-density one:
     * the standard records stop at `k`; the high-density pass runs only after a
     * complete standard pass and stops at `k2`; the first missing image is the
     * error; the scratch directory is reset first, each complete pass writes its
     * sheet, and only a run with no missing image removes the scratch directory and
     * writes the stylesheet, with one rule per name, in order, each as `Describes`
     * gives it.
     */
    ghost predicate Ran(names: seq<string>, disk: map<string, Size>, retinaSheetWidth: int, before: seq<Effect>,
                        outcome: Result<seq<Rule>, Error>)
      reads this
    {
      var k, k2 := FirstMissing(sourceDir, names, disk), FirstMissing(retinaSourceDir, names, disk);
      var sheets := before + [ResetTempDir(tmpOutput)] + [WriteSprite(destPath)];
      var passes := if retina then sheets + [WriteSprite(retinaDestPath)] else sheets;
      && tmpOutput == sourceDir + "/.images"
      && renderRetina == (k == |names| && retina)
      && files == Records(sourceDir, names[..k], disk, spacing)
      && retinaFiles == (if k == |names| && retina then Records(retinaSourceDir, names[..k2], disk, spacing) else [])
      && (k < |names| ==>
            outcome == Failure(SourceMissing(SourcePath(sourceDir, names[k]))) &&
            effects == before + [ResetTempDir(tmpOutput)])
      && (k == |names| && retina && k2 < |names| ==>
            outcome == Failure(SourceMissing(SourcePath(retinaSourceDir, names[k2]))) &&
            effects == sheets)
      && (k == |names| && (retina ==> k2 == |names|) ==>
            && outcome.Success?
            && effects == passes + [RemoveTempDir(tmpOutput)] + [WriteStylesheet(lessPath, outcome.value)]
            && |outcome.value| == |names|
            && forall i :: 0 <= i < |names| ==>
                 Describes(outcome.value[i], i, SheetUrl(relativePath, Basename(destPath)),
                           SheetUrl(relativePath, Basename(retinaDestPath)), BackgroundSize(retinaSheetWidth)))
    }

    /**
     * How a run ends: it succeeds exactly when no image is missing from a pass it
     * makes; a failure names a missing image and leaves the scratch directory and
     * the stylesheet alone, while a success removes the scratch directory and then
     * writes the stylesheet, as its last two effects.
     */
    lemma RanEnds(names: seq<string>, disk: map<string, Size>, retinaSheetWidth: int, before: seq<Effect>,
                  outcome: Result<seq<Rule>, Error>)
      requires Ran(names, disk, retinaSheetWidth, before, outcome)
      ensures outcome.Success? <==>
                AllPresent(sourceDir, names, disk) && (retina ==> AllPresent(retinaSourceDir, names, disk))
      ensures outcome.Failure? ==> outcome.error.SourceMissing?
      ensures |before| < |effects| && effects[..|before|] == before
      ensures outcome.Failure? ==>
                forall e :: e in effects[|before|..] ==> !e.RemoveTempDir? && !e.WriteStylesheet?
      ensures outcome.Success? ==>
                |effects| >= 2 &&
                effects[|effects| - 2] == RemoveTempDir(tmpOutput) &&
                effects[|effects| - 1] == WriteStylesheet(lessPath, outcome.value)
    {
      FirstMissingAll(sourceDir, names, disk);
      FirstMissingAll(retinaSourceDir, names, disk);
    }

    /**
     * The stylesheet a successful run writes, in terms of the names and the images on
     * disk: rule `i` is icon `names[i]`, with its source height and width, the sheet
     * URL, and its place in the sheet (the negated sum of the padded extents of the
     * icons before it); with high-density output, also the high-density sheet's URL,
     * the icon's place in that sheet and the sheet's `background-size`.
     */
    lemma RanRules(names: seq<string>, disk: map<string, Size>, retinaSheetWidth: int, before: seq<Effect>,
                   outcome: Result<seq<Rule>, Error>)
      requires Ran(names, disk, retinaSheetWidth, before, outcome) && outcome.Success?
      ensures Renders(outcome.value, names, disk, sourceDir, spacing, SheetUrl(relativePath, Basename(destPath)), appendRight)
      ensures retina ==> AllPresent(retinaSourceDir, names, disk)
      ensures forall i :: 0 <= i < |outcome.value| ==> outcome.value[i].retina.Some? == retina
      ensures retina ==> forall i :: 0 <= i < |outcome.value| ==>
                var block := outcome.value[i].retina.value;
                && block.url == SheetUrl(relativePath, Basename(retinaDestPath))
                && (block.x, block.y) == RetinaPosition(Records(retinaSourceDir, names, disk, spacing), i, appendRight)
                && block.backgroundSize == BackgroundSize(retinaSheetWidth)
    {
      RanEnds(names, disk, retinaSheetWidth, before, outcome);
      assert names[..|names|] == names;
      RecordsAt(sourceDir, names, disk, spacing);
      forall i | 0 <= i < |names|
        ensures outcome.value[i].name == names[i]
        ensures outcome.value[i].height == disk[SourcePath(sourceDir, names[i])].height
        ensures outcome.value[i].width == disk[SourcePath(sourceDir, names[i])].width
      {
        assert Describes(outcome.value[i], i, SheetUrl(relativePath, Basename(destPath)),
                         SheetUrl(relativePath, Basename(retinaDestPath)), BackgroundSize(retinaSheetWidth));
        assert files[i] == Padded(names[i], disk[SourcePath(sourceDir, names[i])], spacing);
      }
    }

    /** The outcome of a run over a non-empty list, as `Ran` gives it, without the effects. */
    lemma RanOutcome(names: seq<string>, disk: map<string, Size>, retinaSheetWidth: int, before: seq<Effect>,
                     outcome: Result<seq<Rule>, Error>)
      requires Ran(names, disk, retinaSheetWidth, before, outcome)
      ensures outcome.Failure? ==> outcome.error.SourceMissing?
      ensures outcome.Success? <==>
                AllPresent(sourceDir, names, disk) && (retina ==> AllPresent(retinaSourceDir, names, disk))
      ensures outcome.Success? ==>
                Renders(outcome.value, names, disk, sourceDir, spacing, SheetUrl(relativePath, Basename(destPath)), appendRight)
    {
      RanEnds(names, disk, retinaSheetWidth, before, outcome);
      if outcome.Success? {
        RanRules(names, disk, retinaSheetWidth, before, outcome);
      }
    }

    /**
     * What `createSprite` does once the sorted source list is known to be non-empty:
     * the standard pass, the high-density pass when asked, then the removal of the
     * scratch directory and the stylesheet. The first missing image ends it.
     */
    method Build(names: seq<string>, disk: map<string, Size>, retinaSheetWidth: int)
      returns (outcome: Result<seq<Rule>, Error>)
      requires names != [] && files == [] && retinaFiles == [] && !renderRetina
      modifies this`files, this`retinaFiles, this`renderRetina, this`tmpOutput, this`effects
      ensures Ran(names, disk, retinaSheetWidth, old(effects), outcome)
    {
      var err := Passes(names, disk);
      if err.Some? {
        return Failure(err.value);
      }
      assert names[..|names|] == names;
      var rules := Finish(retinaSheetWidth);
      outcome := Success(rules);
    }

    /**
     * `createSprite`: fills in the paths and defaults, resolves and sorts the source
     * list (an empty list is an error before anything is written), then builds the
     * sheets and the stylesheet.
     */
    method CreateSprite(dir: string, entries: seq<string>, sprite: string, less: string,
                        httpPath: Option<string>, spacingArg: Option<int>,
                        listing: seq<string>, disk: map<string, Size>, retinaSheetWidth: int)
      returns (outcome: Result<seq<Rule>, Error>)
      modifies this`sourceDir, this`retinaSourceDir, this`destPath, this`lessPath, this`relativePath
      modifies this`spacing, this`files, this`retinaFiles, this`renderRetina, this`tmpOutput, this`effects
      ensures sourceDir == (if dir != "" then dir else old(sourceDir))
      ensures retinaSourceDir == (if dir != "" then dir + "2x" else old(retinaSourceDir))
      ensures destPath == sprite && lessPath == less
      ensures relativePath == (if Given(httpPath) then httpPath.value else "/images")
      ensures spacing == (if spacingArg.Some? then spacingArg.value else 0)
      ensures var names := SortNames(SourceFiles(entries, listing, sprite));
              names == [] ==>
                outcome == Failure(NoValidSourceFiles) && effects == old(effects) && files == [] && retinaFiles == []
      ensures var names := SortNames(SourceFiles(entries, listing, sprite));
              names != [] ==> Ran(names, disk, retinaSheetWidth, old(effects), outcome)
    {
      Configure(dir, sprite, less, httpPath, spacingArg);
      var collected := GetSourceFiles(entries, listing);
      var names := SortNames(collected);
      if |names| == 0 {
        return Failure(NoValidSourceFiles);
      }
      outcome := Build(names, disk, retinaSheetWidth);
    }
  }

  /**
   * `rules` is the stylesheet for `names` over the images on disk: every image is
   * present in `sourceDir`, and rule `i` is icon `names[i]` with its source height and
   * width, the sheet's URL, and its place in the sheet (the negated sum of the padded
   * extents of the icons before it along the append axis).
   */
  predicate Renders(rules: seq<Rule>, names: seq<string>, disk: map<string, Size>, sourceDir: string,
                    spacing: int, url: string, appendRight: bool)
  {
    && AllPresent(sourceDir, names, disk)
    && |rules| == |names|
    && forall i :: 0 <= i < |names| ==>
         var rule, source := rules[i], disk[SourcePath(sourceDir, names[i])];
         && rule.name == names[i]
         && rule.height == source.height
         && rule.width == source.width
         && rule.url == url
         && (rule.x, rule.y) == Position(Records(sourceDir, names, disk, spacing), i, appendRight)
  }

  /**
   * `new Sprites()` once the spec file has been read: a builder set up from the
   * spec's flags builds the sprite from the spec's entries. `sourceDir` is the
   * spec's "dir" resolved against the spec file's directory, which is done outside
   * this model; like every path `path.resolve` returns, it is absolute. The
   * destination is an absolute path, so the source list is the one no destination
   * test narrows.
   */
  method CreateFromArgs(args: Args, sourceDir: string, listing: seq<string>, disk: map<string, Size>,
                        retinaSheetWidth: int)
    returns (outcome: Result<seq<Rule>, Error>)
    requires IsAbsolute(args.sprite) && IsAbsolute(sourceDir)
    ensures var names := SortNames(SourceFiles(args.files, listing, ""));
            && outcome != Failure(MissingFilesProperty)
            && (outcome == Failure(NoValidSourceFiles) <==> names == [])
            && (outcome.Success? <==>
                  names != [] && AllPresent(sourceDir, names, disk) &&
                  (args.retina ==> AllPresent(sourceDir + "2x", names, disk)))
            && (outcome.Success? ==>
                  Renders(outcome.value, names, disk, sourceDir,
                          if args.spacing.Some? then args.spacing.value else 0,
                          SheetUrl(if Given(args.httpPath) then args.httpPath.value else "/images", Basename(args.sprite)),
                          args.appendRight))
  {
    var sprites := new Sprites(args);
    AbsoluteDestinationIgnored(args.files, listing, args.sprite);
    outcome := sprites.CreateSprite(sourceDir, args.files, args.sprite, args.less, args.httpPath, args.spacing,
                                    listing, disk, retinaSheetWidth);
    ghost var names := SortNames(SourceFiles(args.files, listing, args.sprite));
    if names != [] {
      sprites.RanOutcome(names, disk, retinaSheetWidth, [], outcome);
    }
  }

  /**
   * `new Sprites()`: reads the spec file, then builds the sprite. A spec without
   * "files" is the only way to the "Missing files" error and an empty source list the
   * only way to "No valid source files"; a run succeeds exactly when every source
   * image is present (in both directories, with high-density output), and then the
   * stylesheet has one rule per sorted source name, placed as `Renders` says.
   */
  method Run(specsFile: string, raw: RawSpec, sourceDir: string,
             listing: seq<string>, disk: map<string, Size>, retinaSheetWidth: int)
    returns (outcome: Result<seq<Rule>, Error>)
    requires IsAbsolute(specsFile) && IsAbsolute(sourceDir)
    ensures outcome == Failure(MissingFilesProperty) <==> raw.files.None?
    ensures raw.files.Some? ==>
              var names := SortNames(SourceFiles(raw.files.value, listing, ""));
              && (outcome == Failure(NoValidSourceFiles) <==> names == [])
              && (outcome.Success? <==>
                    names != [] && AllPresent(sourceDir, names, disk) &&
                    (raw.retina ==> AllPresent(sourceDir + "2x", names, disk)))
              && (outcome.Success? ==>
                    Renders(outcome.value, names, disk, sourceDir,
                            if raw.spacing.Some? then raw.spacing.value else 0,
                            SheetUrl(if Given(raw.httpPath) then raw.httpPath.value else "/images",
                                     Basename(ReadSpec(specsFile, raw).value.sprite)),
                            ReadSpec(specsFile, raw).value.appendRight))
  {
    var spec := ReadSpec(specsFile, raw);
    if spec.Failure? {
      return Failure(spec.error);
    }
    outcome := CreateFromArgs(spec.value, sourceDir, listing, disk, retinaSheetWidth);
  }
}
