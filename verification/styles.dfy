/**
 * The values each stylesheet rule carries, and where each icon sits in the
 * sheet: the negated sum of the extents of the icons before it along the
 * append axis, with the other axis at 0.
 */
module Styles {
  import opened Wrappers
  import opened Layout

  /** The high-density part of a rule: sheet URL, pre-advance offset, and `background-size`. */
  datatype RetinaBlock = RetinaBlock(url: string, x: int, y: real, backgroundSize: int)

  /** One `.sprite(...)` rule: the icon's name, visual height and width, sheet URL and background position. */
  datatype Rule = Rule(name: string, height: int, width: int, url: string, x: int, y: int, retina: Option<RetinaBlock>)

  /** An icon's extent along the append axis: its width when appending right, its height when appending down. */
  function Extent(r: IconRecord, appendRight: bool): int {
    if appendRight then r.size.width else r.size.height
  }

  /** Sum of the extents of `rs` along the append axis. */
  function Total(rs: seq<IconRecord>, appendRight: bool): int
    decreases |rs|
  {
    if rs == [] then 0 else Extent(rs[0], appendRight) + Total(rs[1..], appendRight)
  }

  /** Background position of icon `i` on the standard sheet. */
  function Position(rs: seq<IconRecord>, i: nat, appendRight: bool): (int, int)
    requires i <= |rs|
  {
    var offset := -Total(rs[..i], appendRight);
    if appendRight then (offset, 0) else (0, offset)
  }

  /**
   * Background position of icon `i` on the high-density sheet: the full widths when
   * appending right, half the heights when appending down.
   */
  function RetinaPosition(rs: seq<IconRecord>, i: nat, appendRight: bool): (int, real)
    requires i <= |rs|
  {
    if appendRight then (-Total(rs[..i], true), 0.0)
    else (0, -(Total(rs[..i], false) as real) / 2.0)
  }

  /** `Math.ceil(sheetWidth / 2)`: the least whole number at least half the sheet width. */
  function BackgroundSize(sheetWidth: int): (r: int)
    ensures 2 * r >= sheetWidth && 2 * (r - 1) < sheetWidth
  {
    (sheetWidth + 1) / 2
  }

  /** URL of a sheet: the public prefix, a slash, and the sheet file's basename. */
  function SheetUrl(relativePath: string, sheetName: string): string {
    relativePath + "/" + sheetName
  }

  lemma {:induction false} TotalAppend(a: seq<IconRecord>, b: seq<IconRecord>, appendRight: bool)
    ensures Total(a + b, appendRight) == Total(a, appendRight) + Total(b, appendRight)
    decreases |a|
  {
    if a == [] {
      assert a + b == b;
    } else {
      assert (a + b)[1..] == a[1..] + b;
      TotalAppend(a[1..], b, appendRight);
    }
  }

  /** Adding one more icon grows the running total by that icon's extent. */
  lemma TotalStep(rs: seq<IconRecord>, i: nat, appendRight: bool)
    requires i < |rs|
    ensures Total(rs[..i + 1], appendRight) == Total(rs[..i], appendRight) + Extent(rs[i], appendRight)
  {
    assert rs[..i + 1] == rs[..i] + [rs[i]];
    TotalAppend(rs[..i], [rs[i]], appendRight);
    assert [rs[i]][1..] == [];
  }

  /**
   * The cursor moves along one axis only: icon `i + 1` sits where icon `i` sits,
   * less icon `i`'s width (appending right) or height (appending down).
   */
  lemma PositionStep(rs: seq<IconRecord>, i: nat, appendRight: bool)
    requires i < |rs|
    ensures var (x, y) := Position(rs, i, appendRight);
            Position(rs, i + 1, appendRight) ==
              if appendRight then (x - rs[i].size.width, y) else (x, y - rs[i].size.height)
  {
    TotalStep(rs, i, appendRight);
  }

  /**
   * The high-density cursor: appending right it drops by the full width,
   * appending down by half the height.
   */
  lemma RetinaPositionStep(rs: seq<IconRecord>, i: nat, appendRight: bool)
    requires i < |rs|
    ensures var (x, y) := RetinaPosition(rs, i, appendRight);
            RetinaPosition(rs, i + 1, appendRight) ==
              if appendRight then (x - rs[i].size.width, y) else (x, y - (rs[i].size.height as real) / 2.0)
  {
    TotalStep(rs, i, appendRight);
  }

  lemma {:induction false} TotalNonNegative(rs: seq<IconRecord>, appendRight: bool)
    requires forall k :: 0 <= k < |rs| ==> Extent(rs[k], appendRight) >= 0
    ensures Total(rs, appendRight) >= 0
    decreases |rs|
  {
    if rs != [] {
      TotalNonNegative(rs[1..], appendRight);
    }
  }

  /**
   * With no negative extents, icons do not overlap: icon `i`'s span along the append
   * axis ends where a later icon `j` starts, or earlier.
   */
  lemma NoOverlap(rs: seq<IconRecord>, i: nat, j: nat, appendRight: bool)
    requires i < j <= |rs|
    requires forall k :: 0 <= k < |rs| ==> Extent(rs[k], appendRight) >= 0
    ensures Total(rs[..i], appendRight) + Extent(rs[i], appendRight) <= Total(rs[..j], appendRight)
  {
    TotalStep(rs, i, appendRight);
    assert rs[..j] == rs[..i + 1] + rs[i + 1..j];
    TotalAppend(rs[..i + 1], rs[i + 1..j], appendRight);
    TotalNonNegative(rs[i + 1..j], appendRight);
  }

  /** Three icons of padded heights 10, 20 and 30, appended down, sit at y = 0, -10 and -30. */
  lemma ThreeIconsDown()
    ensures var rs := [IconRecord("a.png", Size(16, 10)), IconRecord("b.png", Size(16, 20)), IconRecord("c.png", Size(16, 30))];
            Position(rs, 0, false) == (0, 0) && Position(rs, 1, false) == (0, -10) && Position(rs, 2, false) == (0, -30)
  {
    var rs := [IconRecord("a.png", Size(16, 10)), IconRecord("b.png", Size(16, 20)), IconRecord("c.png", Size(16, 30))];
    assert rs[..0] == [];
    assert rs[..1] == [rs[0]];
    assert rs[..2] == [rs[0], rs[1]];
  }
}
