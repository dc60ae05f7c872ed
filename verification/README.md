# less-sprites, modelled in Dafny

less-sprites is a command-line tool. It reads a JSON sprite spec and combines the PNG icons
the spec names into one sprite sheet. With `"retina": true` it also builds a second,
high-density sheet. It then writes a LESS stylesheet with one `.sprite("<name>")` mixin per
icon. Each mixin gives the icon's visual size and its background position in the sheet.
This project models the core of `index.js`:

- how the spec file is read and its defaults are filled in (`readArgs`);
- how the fields of the `Sprites` object are set up (`createSprite`);
- how the source list is resolved and then sorted (`getSourceFiles`, `.sort()`);
- how the layout passes append one record per icon (`combine`, `processFile`);
- how the offset loop of `writeStyles` places each icon;
- which filesystem changes a run makes, and in what order.

The model has one file per concern:

| file | module | what it holds |
|---|---|---|
| `wrappers.dfy` | `Wrappers`, `Errors` | `Option`, `Result`, and the three errors a run can end with |
| `paths.dfy` | `Paths` | the `path.basename` / `path.dirname` behaviour the tool relies on |
| `patterns.dfy` | `Patterns` | the two regular expressions, `/.*\.png$/i` and `/.png/i` |
| `ordering.dfy` | `Ordering` | the order of JavaScript's default `sort`, and a sort by that order |
| `sources.dfy` | `Sources` | which names the source list holds: specification functions and their properties |
| `layout.dfy` | `Layout` | the records a pass appends, and the first missing image |
| `styles.dfy` | `Styles` | rule values, standard and high-density offsets, and `background-size` |
| `specs.dfy` | `Specs` | reading the spec file and filling in its defaults |
| `builder.dfy` | `Builder` | the `Sprites` class, whose methods update its fields as `index.js` does, and `Run` |

The outside world becomes values:

- The source images present on disk are a map, `disk`, from each image's path to its pixel size.
- Reading the source directory gives the sequence `listing`.
- The width of the written high-density sheet is the parameter `retinaSheetWidth`.
- Everything a run writes or removes is appended, in order, to the field `effects`:
  resetting the scratch directory, writing a sheet, removing the scratch directory, and
  writing the stylesheet with its rules.

Each rule is kept as the values the LESS text is printed from, not as the text itself.

How `index.js` behaves in some corner cases, as the model has it:

- When the sprite sheet left by an earlier run sits in the source directory, the wildcard
  `"*"` selects it like any other matching entry (`Sources.WildcardKeepsDestination`).
- An explicit entry is compared with the destination path. That comparison sets a basename
  against an absolute path, so it never excludes anything
  (`Sources.AbsoluteDestinationNeverExcludes`).
- The scratch directory is reset once, before the standard pass. It is removed once, after the
  last sheet has been written.
- On the high-density sheet, the offset moves by the full icon width when appending right,
  and by half the icon height when appending down.
- An image missing from the high-density directory ends the run after the standard sheet
  has been written (`Builder.Sprites.Ran`, `Builder.Sprites.RanEnds`).

## Model

| member | source | states |
|---|---|---|
| Paths.Basename | index.js:103 | the basename has no slash, and a name without a slash is its own basename |
| Paths.BasenameWithoutExt | index.js:271 | the result has no slash, and it is the basename either with the extension cut off its end or unchanged |
| Paths.Dirname | index.js:275 | the directory of an absolute path is absolute |
| Paths.DirnameOfJoin | index.js:275 | the directory of an absolute directory (not the root, no trailing slash) joined with a plain name is that directory |
| Paths.StemOf | index.js:271 | the spec file `dir/stem.json` without its `.json` is `stem` |
| Paths.BasenameOfJoin | index.js:275 | joining a directory, a slash and a plain name gives back that name as the basename |
| Patterns.EndsWithPngContainsPng | index.js:104-110 | every name that `/.*\.png$/i` accepts, `/.png/i` accepts too |
| Ordering.BelowTotal | index.js:42 | any two names are comparable in the sort order |
| Ordering.BelowAntisymmetric | index.js:42 | two names that each sort no later than the other are equal |
| Ordering.BelowTransitive | index.js:42 | the sort order is transitive |
| Ordering.Insert | index.js:42 | inserting into a sorted list keeps it sorted and adds exactly one occurrence of the name |
| Ordering.SortNames | index.js:42 | the sorted list is in the default `sort` order |
| Ordering.SortNamesPermutes | index.js:42 | sorting neither drops, adds nor duplicates a name (same multiset) |
| Ordering.SortedUnique | index.js:42 | two sorted lists holding the same names are equal, so the sort's result is determined by the names alone |
| Ordering.SortIgnoresOrder | index.js:42 | lists holding the same names sort to the same list |
| Sources.CollectedStep | index.js:102-113 | one iteration of the loop: a leading `*` replaces the list with the matching directory entries; any other entry appends its basename when that ends in `.png` and is not the destination |
| Sources.CollectedAll | index.js:114-116 | after the last entry, the collected list is the resolved source list |
| Sources.ExplicitAppend | index.js:102-105 | entries are treated one by one: the kept names of `a + b` are those of `a` followed by those of `b` |
| Sources.ExplicitMembership | index.js:102-105 | a name is kept exactly when some entry has it as its `.png` basename and it is not the destination |
| Sources.WildcardMembership | index.js:106-112 | the wildcard yields exactly the listed entries that match `/.png/i` |
| Sources.SourceFilesMembership | index.js:97-117 | a name is in the resolved list exactly when the wildcard selects it or an explicit entry does |
| Sources.ResolvedNamesMatch | index.js:104-110 | every resolved name matches `/.png/i` |
| Sources.ExplicitSkipsWildcard | index.js:106 | a `*` among the explicit entries contributes nothing |
| Sources.LateWildcardIgnored | index.js:106 | a `*` anywhere but first leaves the resolved list unchanged |
| Sources.AbsoluteDestinationNeverExcludes | index.js:104 | with an absolute destination path, the explicit list is the same as with no destination test |
| Sources.AbsoluteDestinationIgnored | index.js:102-105 | the resolved list does not depend on the absolute destination path |
| Sources.ExplicitPermutation | index.js:102-105 | reordering the entries reorders the kept names the same way (equal multisets) |
| Sources.EntryOrderIrrelevant | index.js:42 | without a wildcard, the sorted source list does not depend on the order of the spec's entries |
| Sources.WildcardKeepsDestination | index.js:106-112 | the wildcard keeps the sheet's own name when the directory lists it |
| Layout.Padded | index.js:145-155 | a record keeps the image's name and width; its height less the spacing is the source height |
| Layout.FirstMissing | index.js:138-140 | the index of the first name whose image is absent: all before it are present, and it is absent |
| Layout.Records | index.js:156-160 | a pass appends one record per name |
| Layout.RecordsAt | index.js:151-160 | record `j` belongs to name `j` and carries that image's padded size |
| Layout.PassesAlign | index.js:51-58 | the standard and high-density records pair up by position, both under name `j` |
| Styles.BackgroundSize | index.js:239 | `Math.ceil(width / 2)`: the least integer whose double is at least the sheet width |
| Styles.TotalAppend | index.js:216-220 | the running offset is additive over consecutive icons |
| Styles.PositionStep | index.js:216-220 | the next icon sits where this one sits, less its width (appending right) or its height (appending down); the other axis never moves |
| Styles.RetinaPositionStep | index.js:222-226 | on the high-density sheet the step is the full width appending right and half the height appending down |
| Styles.TotalNonNegative | index.js:216-220 | with no negative extents, the running offset never goes positive |
| Styles.NoOverlap | index.js:216-220 | with no negative extents, each icon's span ends no later than any later icon's span starts |
| Styles.ThreeIconsDown | index.js:176-220 | three icons of heights 10, 20 and 30, appended down, sit at y = 0, -10 and -30 |
| Specs.BesideSpec | index.js:274-276 | a name placed beside the spec file is absolute |
| Specs.ReadSpec | index.js:263-297 | a spec without `files` is the "Missing files" error and nothing else is; otherwise the files are passed on as written, the sheet and stylesheet paths are absolute, `dir` defaults to `.`, right-appending means `direction` is exactly `"right"`, and the high-density path is absolute |
| Specs.DefaultSprite | index.js:270-276 | without `sprite`, the sheet is the spec's name with `.png` for `.json`, in the spec's directory |
| Specs.DefaultLess | index.js:278-284 | without `less`, the stylesheet is the spec's name with `.less` for `.json`, in the spec's directory |
| Specs.RetinaSheetName | index.js:293-297 | the high-density sheet is the spec's name with `2x.png` for `.json`, in the spec's directory |
| Specs.GivenSpritePlacement | index.js:274-276 | a relative `sprite` goes into the spec's directory; an absolute one is kept |
| Specs.GivenLessPlacement | index.js:282-284 | a relative `less` goes into the spec's directory; an absolute one is kept |
| Specs.OutputsBesideSpec | index.js:270-296 | for the spec file `dir/stem.json`: the sheet is `dir/stem.png` by default, `dir/<sprite>` for a relative entry and the entry itself for an absolute one; the same for the stylesheet with `.less`; the high-density sheet is `dir/stem2x.png` |
| Builder.Sprites.constructor | index.js:14-19 | the flags come from the spec, the record lists are empty, and nothing has been written |
| Builder.Sprites.GetSourceFiles | index.js:97-117 | the loop returns exactly the resolved source list |
| Builder.Sprites.ScanListing | index.js:108-112 | the directory callback keeps, in order, exactly the entries matching `/.png/i` |
| Builder.Sprites.ProcessFile | index.js:131-165 | a present image appends its padded record to the current pass's list; a missing one is the `SourceMissing` error with its path and appends nothing; the other pass's list is unchanged |
| Builder.Sprites.Combine | index.js:119-129 | the pass's list grows by the records of the names before the first missing image; the error is that image, or none |
| Builder.Sprites.WriteStyles | index.js:167-245 | one rule per standard record, in order, each as `Describes` gives it: its name, its height less the spacing, its width, the sheet URL and its position before the cursor advances; with high-density output, also the high-density URL, the high-density position and `background-size` |
| Builder.Sprites.Configure | index.js:21-38 | the source directories change only when a directory is given; the paths are set; the URL prefix defaults to `/images` and the spacing to 0; the lists are emptied |
| Builder.Sprites.StandardSheet | index.js:48-54 | resets the scratch directory, runs the standard pass, and writes the standard sheet only when no image is missing |
| Builder.Sprites.RetinaSheet | index.js:55-61 | switches to the high-density directory, runs that pass, and writes the high-density sheet only when no image is missing; the standard records are kept |
| Builder.Sprites.Passes | index.js:48-61 | the high-density pass runs only after a complete standard pass; the first missing image is the error, and the effects are those of the passes that ran |
| Builder.Sprites.Finish | index.js:62-68 | removes the scratch directory, then writes the stylesheet, whose rules are those of `WriteStyles`, one per standard record |
| Builder.Sprites.RanEnds | index.js:44-71 | a run succeeds exactly when every image is present in each directory a pass reads; a failure names a missing image, and neither removes the scratch directory nor writes the stylesheet; a success ends by removing the scratch directory and then writing the stylesheet |
| Builder.Sprites.RanRules | index.js:167-245 | in the stylesheet of a successful run, rule `i` is icon `names[i]` with its source height and width, the sheet URL and its place: the negated sum of the padded extents of the icons before it (`Builder.Renders`); with high-density output, also the high-density URL, the place in the high-density sheet and `background-size` |
| Builder.Sprites.RanOutcome | index.js:44-71 | a failed run names a missing image; a run succeeds exactly when every image it reads is present, and then its stylesheet is as `Builder.Renders` says |
| Builder.Sprites.Build | index.js:48-71 | the whole run over a non-empty sorted list, as `Ran` describes it: the records, the error, the effects in order and, on success, every rule as `Describes` gives it |
| Builder.Sprites.CreateSprite | index.js:21-72 | fills in the fields; an empty sorted source list is the "No valid source files" error, with nothing written; otherwise the run over the sorted list, as `Ran` describes it |
| Builder.CreateFromArgs | index.js:14-72 | a builder set up from the read spec either fails with "No valid source files" exactly when the sorted list is empty, or succeeds exactly when every image is present, and then writes the rules `Builder.Renders` describes, with the `/images` and 0 defaults |
| Builder.Run | index.js:247-306 | a spec without `files` is the only way to get the "Missing files" error; an empty resolved list is the only way to get "No valid source files"; a run succeeds exactly when every source image is present (in both directories with high-density output); a success has one rule per sorted source name, with its source height and width, the sheet URL and its place in the sheet |

## Left out

- Image work: `gm`/ImageMagick reading sizes, extending, appending and writing images (index.js:142-164, 237-241). Image sizes come from `disk`, and the written high-density sheet's width is a parameter. Neither the composite image nor the per-image intermediate copies in the scratch directory are modelled.
- `setSpriteInstance` (index.js:74-77): it only creates a new image object.
- The file operations of `tempDirectory` (index.js:79-95): each call is one effect, either resetting the scratch directory or removing it.
- Command-line handling: `argv`, `printUsage`, the spec-file existence check and `process.exit` (index.js:247-262, 309 on). Loading the JSON with `require` is not modelled either. The spec arrives as a `RawSpec` value and its path as an absolute path.
- `path.resolve` normalisation (index.js:27, 30, 33, 263, 300):
  - paths are kept as given;
  - the source directory resolved from `dir` is an input of `Builder.Run`;
  - `Builder.Sprites.CreateSprite` leaves `retinaDestPath` as `Specs.ReadSpec` built it, which is already absolute.
- JSON values other than strings, numbers and lists: truthiness is reduced to "present and non-empty" (`Specs.Given`), and `retina` to a boolean.
- Text rendering with `util.format` (index.js:185-214): rules carry the printed values, not the LESS text.
- Ordering.SortNames: it compares Unicode code points. JavaScript compares UTF-16 code units, so the two orders differ only for names with characters outside the Basic Multilingual Plane.
- Asynchrony: the `Q` promises, `async.eachLimit(…, 1, …)` and the callbacks run in sequence in the model, as the limit of 1 makes them run.
- Errors thrown inside image or file callbacks (failed writes, unreadable images) are not modelled. An image present in `disk` is taken to be readable.
- An error from `readdirSync` on a missing source directory is not modelled: `listing` is given.
- Numbers are unbounded integers. The high-density vertical offset is a `real`, because JavaScript's division by 2 can leave a half.
- Builder.Sprites.WriteStyles: it requires that, with high-density output, there are at least as many high-density records as standard ones. `index.js` would read an undefined record otherwise, and it calls `writeStyles` only after both passes have completed.
- Builder.Run: it states the outcome and the standard sheet's rules, but not the effects or the high-density blocks. Those are stated by `Builder.Sprites.CreateSprite` through `Builder.Sprites.Ran` and by `Builder.Sprites.RanRules`.
- Builder.Run: it requires the resolved source directory to be absolute, as `path.resolve` (index.js:300) makes it.
