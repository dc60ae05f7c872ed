/**
 * The records one layout pass appends: for each source image, its name and
 * its size after padding to `(width, height + spacing)`.
 */
module Layout {

  datatype Size = Size(width: int, height: int)

  /** One processed icon: its file name and its padded size. */
  datatype IconRecord = IconRecord(name: string, size: Size)

  /** Where `processFile` reads `name` from in directory `dir`. */
  function SourcePath(dir: string, name: string): string {
    dir + "/" + name
  }

  /** The record of an icon whose source image has size `source`; the padding is undone by subtracting `spacing`. */
  function Padded(name: string, source: Size, spacing: int): (r: IconRecord)
    ensures r.name == name && r.size.width == source.width
    ensures r.size.height - spacing == source.height
  {
    IconRecord(name, Size(source.width, source.height + spacing))
  }

  /** Index of the first name whose source image is absent from `disk`, or `|names|` when none is. */
  function FirstMissing(dir: string, names: seq<string>, disk: map<string, Size>): (k: nat)
    ensures k <= |names|
    ensures forall j :: 0 <= j < k ==> SourcePath(dir, names[j]) in disk
    ensures k < |names| ==> SourcePath(dir, names[k]) !in disk
    decreases |names|
  {
    if names == [] then 0
    else if SourcePath(dir, names[0]) !in disk then 0
    else 1 + FirstMissing(dir, names[1..], disk)
  }

  /** The records a pass over `names` appends, one per name, in the same order. */
  function Records(dir: string, names: seq<string>, disk: map<string, Size>, spacing: int): (r: seq<IconRecord>)
    requires forall j :: 0 <= j < |names| ==> SourcePath(dir, names[j]) in disk
    ensures |r| == |names|
    decreases |names|
  {
    if names == [] then []
    else
      var last := names[|names| - 1];
      Records(dir, names[..|names| - 1], disk, spacing) + [Padded(last, disk[SourcePath(dir, last)], spacing)]
  }

  /** Record `j` of a pass belongs to name `j` and carries its padded size. */
  lemma {:induction false} RecordsAt(dir: string, names: seq<string>, disk: map<string, Size>, spacing: int)
    requires forall j :: 0 <= j < |names| ==> SourcePath(dir, names[j]) in disk
    ensures forall j :: 0 <= j < |names| ==>
              Records(dir, names, disk, spacing)[j] == Padded(names[j], disk[SourcePath(dir, names[j])], spacing)
    decreases |names|
  {
    if names != [] {
      RecordsAt(dir, names[..|names| - 1], disk, spacing);
    }
  }

  /** Every name's source image is in `dir` on `disk`. */
  predicate AllPresent(dir: string, names: seq<string>, disk: map<string, Size>) {
    forall j :: 0 <= j < |names| ==> SourcePath(dir, names[j]) in disk
  }

  /** No name is missing exactly when every name's image is present. */
  lemma FirstMissingAll(dir: string, names: seq<string>, disk: map<string, Size>)
    ensures FirstMissing(dir, names, disk) == |names| <==> AllPresent(dir, names, disk)
  {
    var k := FirstMissing(dir, names, disk);
    if k < |names| {
      assert SourcePath(dir, names[k]) !in disk;
    }
  }

  /** The first missing name is at `i` when all before it are present and `names[i]`, if any, is not. */
  lemma FirstMissingAt(dir: string, names: seq<string>, disk: map<string, Size>, i: nat)
    requires i <= |names|
    requires forall j :: 0 <= j < i ==> SourcePath(dir, names[j]) in disk
    requires i < |names| ==> SourcePath(dir, names[i]) !in disk
    ensures FirstMissing(dir, names, disk) == i
  {
  }

  /** A pass over one more name appends that name's record. */
  lemma RecordsStep(dir: string, names: seq<string>, disk: map<string, Size>, spacing: int, i: nat)
    requires i < |names|
    requires forall j :: 0 <= j <= i ==> SourcePath(dir, names[j]) in disk
    ensures Records(dir, names[..i + 1], disk, spacing) ==
            Records(dir, names[..i], disk, spacing) + [Padded(names[i], disk[SourcePath(dir, names[i])], spacing)]
  {
    assert names[..i + 1][..i] == names[..i];
  }

  /**
   * Two passes over the same names, from two directories, pair up by position:
   * record `j` of each belongs to name `j`.
   */
  lemma PassesAlign(dir: string, dir2: string, names: seq<string>, disk: map<string, Size>, spacing: int)
    requires forall j :: 0 <= j < |names| ==> SourcePath(dir, names[j]) in disk
    requires forall j :: 0 <= j < |names| ==> SourcePath(dir2, names[j]) in disk
    ensures var standard, retina := Records(dir, names, disk, spacing), Records(dir2, names, disk, spacing);
            |standard| == |retina| &&
            forall j :: 0 <= j < |standard| ==> standard[j].name == retina[j].name == names[j]
  {
    RecordsAt(dir, names, disk, spacing);
    RecordsAt(dir2, names, disk, spacing);
  }
}
