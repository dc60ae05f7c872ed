/**
 * Reading the sprite spec file: the defaults the command fills in before it
 * builds the sprite. The spec file's path is the absolute path `path.resolve`
 * gives; the JSON fields arrive as optional values, and an empty string is
 * treated as absent, as JavaScript's truthiness test does.
 */
module Specs {
  import opened Wrappers
  import opened Paths
  import opened Errors

  /** The fields of the spec file that the builder reads. */
  datatype RawSpec = RawSpec(
    dir: Option<string>,
    sprite: Option<string>,
    less: Option<string>,
    files: Option<seq<string>>,
    httpPath: Option<string>,
    spacing: Option<int>,
    direction: Option<string>,
    retina: bool)

  /** What the spec file yields: the arguments of `createSprite` and the flags set beside them. */
  datatype Args = Args(
    dir: string,
    files: seq<string>,
    sprite: string,
    less: string,
    httpPath: Option<string>,
    spacing: Option<int>,
    appendRight: bool,
    retina: bool,
    retinaDestPath: string)

  /** A JSON string field that is present and not empty. */
  predicate Given(field: Option<string>) {
    field.Some? && field.value != ""
  }

  /** The spec file's name without its ".json" extension. */
  function Stem(specsFile: string): string {
    BasenameWithoutExt(specsFile, ".json")
  }

  /** A file name taken relative to the spec file's directory unless it is absolute. */
  function BesideSpec(specsFile: string, name: string): (r: string)
    requires IsAbsolute(specsFile) && name != []
    ensures IsAbsolute(r)
  {
    if name[0] != '/' then Dirname(specsFile) + "/" + name else name
  }

  /** The defaults of the spec file, and its one required field. */
  function ReadSpec(specsFile: string, raw: RawSpec): (r: Result<Args, Error>)
    requires IsAbsolute(specsFile)
    ensures r.Failure? <==> raw.files.None?
    ensures r.Failure? ==> r.error == MissingFilesProperty
    ensures r.Success? ==>
      && r.value.files == raw.files.value
      && IsAbsolute(r.value.sprite) && IsAbsolute(r.value.less)
      && (r.value.appendRight <==> raw.direction == Some("right"))
      && r.value.retina == raw.retina
      && (r.value.retina ==> IsAbsolute(r.value.retinaDestPath))
      && r.value.dir == (if Given(raw.dir) then raw.dir.value else ".")
      && r.value.httpPath == raw.httpPath && r.value.spacing == raw.spacing
  {
    var dir := if Given(raw.dir) then raw.dir.value else ".";
    var sprite := if Given(raw.sprite) then raw.sprite.value else Stem(specsFile) + ".png";
    var less := if Given(raw.less) then raw.less.value else Stem(specsFile) + ".less";
    if raw.files.None? then Failure(MissingFilesProperty)
    else
      var appendRight := if Given(raw.direction) then raw.direction.value == "right" else false;
      var retinaDestPath := if raw.retina then Dirname(specsFile) + "/" + Stem(specsFile) + "2x.png" else "";
      Success(Args(dir, raw.files.value, BesideSpec(specsFile, sprite), BesideSpec(specsFile, less),
                   raw.httpPath, raw.spacing, appendRight, raw.retina, retinaDestPath))
  }

  /**
   * Without a "sprite" entry, the sheet is named after the spec file (".json"
   * replaced by ".png") and sits in the spec file's directory.
   */
  lemma DefaultSprite(specsFile: string, raw: RawSpec)
    requires IsAbsolute(specsFile) && raw.files.Some? && !Given(raw.sprite)
    ensures var sprite := ReadSpec(specsFile, raw).value.sprite;
            sprite == Dirname(specsFile) + "/" + Stem(specsFile) + ".png" &&
            Basename(sprite) == Stem(specsFile) + ".png"
  {
    DefaultPlacement(specsFile, ".png");
  }

  /** Without a "less" entry, the stylesheet is named after the spec file and sits beside it. */
  lemma DefaultLess(specsFile: string, raw: RawSpec)
    requires IsAbsolute(specsFile) && raw.files.Some? && !Given(raw.less)
    ensures var less := ReadSpec(specsFile, raw).value.less;
            less == Dirname(specsFile) + "/" + Stem(specsFile) + ".less" &&
            Basename(less) == Stem(specsFile) + ".less"
  {
    DefaultPlacement(specsFile, ".less");
  }

  /**
   * The high-density sheet is always named after the spec file, with "2x" added,
   * and sits in the spec file's directory.
   */
  lemma RetinaSheetName(specsFile: string, raw: RawSpec)
    requires IsAbsolute(specsFile) && raw.files.Some? && raw.retina
    ensures var retinaDestPath := ReadSpec(specsFile, raw).value.retinaDestPath;
            retinaDestPath == Dirname(specsFile) + "/" + Stem(specsFile) + "2x.png" &&
            Basename(retinaDestPath) == Stem(specsFile) + "2x.png"
  {
    var stem, dir := Stem(specsFile), Dirname(specsFile);
    NameNoSlash(stem, "2x.png");
    assert dir + "/" + stem + "2x.png" == dir + "/" + (stem + "2x.png");
    BasenameOfJoin(dir, stem + "2x.png");
  }

  /** The default name with `suffix` goes into the spec file's directory, and keeps its name there. */
  lemma DefaultPlacement(specsFile: string, suffix: string)
    requires IsAbsolute(specsFile) && suffix != [] && '/' !in suffix
    ensures var name := Stem(specsFile) + suffix;
            && BesideSpec(specsFile, name) == Dirname(specsFile) + "/" + Stem(specsFile) + suffix
            && Basename(BesideSpec(specsFile, name)) == name
  {
    var stem, dir := Stem(specsFile), Dirname(specsFile);
    NameNoSlash(stem, suffix);
    assert (stem + suffix)[0] != '/' by { assert (stem + suffix)[0] in stem + suffix; }
    assert dir + "/" + stem + suffix == dir + "/" + (stem + suffix);
    BasenameOfJoin(dir, stem + suffix);
  }

  lemma NameNoSlash(stem: string, suffix: string)
    requires '/' !in stem && '/' !in suffix
    ensures '/' !in stem + suffix
  {
    forall c | c in stem + suffix ensures c != '/' {
      var k :| 0 <= k < |stem + suffix| && (stem + suffix)[k] == c;
      if k < |stem| { assert c == stem[k]; } else { assert c == suffix[k - |stem|]; }
    }
  }

  /** A relative "sprite" entry is placed in the spec file's directory; an absolute one is kept as written. */
  lemma GivenSpritePlacement(specsFile: string, raw: RawSpec)
    requires IsAbsolute(specsFile) && raw.files.Some? && Given(raw.sprite)
    ensures var args := ReadSpec(specsFile, raw).value;
            args.sprite == if raw.sprite.value[0] == '/' then raw.sprite.value
                           else Dirname(specsFile) + "/" + raw.sprite.value
  {
  }

  /** A relative "less" entry is placed in the spec file's directory; an absolute one is kept as written. */
  lemma GivenLessPlacement(specsFile: string, raw: RawSpec)
    requires IsAbsolute(specsFile) && raw.files.Some? && Given(raw.less)
    ensures var args := ReadSpec(specsFile, raw).value;
            args.less == if raw.less.value[0] == '/' then raw.less.value
                         else Dirname(specsFile) + "/" + raw.less.value
  {
  }

  /**
   * For the spec file `dir/stem.json`, where the outputs go: a relative "sprite" or
   * "less" entry into `dir`, an absolute one where it says, a missing one to
   * `dir/stem.png` or `dir/stem.less`; the high-density sheet to `dir/stem2x.png`.
   */
  lemma OutputsBesideSpec(dir: string, stem: string, raw: RawSpec)
    requires IsAbsolute(dir) && dir != "/" && dir[|dir| - 1] != '/'
    requires stem != [] && '/' !in stem && raw.files.Some?
    ensures var args := ReadSpec(dir + "/" + stem + ".json", raw).value;
            && args.sprite == (if !Given(raw.sprite) then dir + "/" + stem + ".png"
                               else if raw.sprite.value[0] == '/' then raw.sprite.value
                               else dir + "/" + raw.sprite.value)
            && args.less == (if !Given(raw.less) then dir + "/" + stem + ".less"
                             else if raw.less.value[0] == '/' then raw.less.value
                             else dir + "/" + raw.less.value)
            && (raw.retina ==> args.retinaDestPath == dir + "/" + stem + "2x.png")
  {
    var specsFile := dir + "/" + stem + ".json";
    assert specsFile == dir + "/" + (stem + ".json");
    assert '/' !in stem + ".json" by { NameNoSlash(stem, ".json"); }
    DirnameOfJoin(dir, stem + ".json");
    StemOf(dir, stem);
    if !Given(raw.sprite) {
      DefaultSprite(specsFile, raw);
    }
    if !Given(raw.less) {
      DefaultLess(specsFile, raw);
    }
  }
}
