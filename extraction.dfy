/**
 * Row extraction (download_Luchia.py:88-99): the data rows of the active
 * sheet, from the second row on, become two parallel lists of sanitised
 * names and hyperlink targets.
 */
module Extraction {
  import opened Wrappers
  import opened Text
  import opened Sanitizer

  /** A cell's hyperlink; its target may be absent. */
  datatype Hyperlink = Hyperlink(target: Option<string>)

  /** A spreadsheet cell: its value (`None` when empty) and its hyperlink, if any. */
  datatype Cell = Cell(value: Option<string>, hyperlink: Option<Hyperlink>)

  type Row = seq<Cell>

  /** The zero-based indices of the title, extra-information and link columns. */
  datatype ColumnMapping = ColumnMapping(name: nat, extra: nat, link: nat)

  datatype VideoEntry = VideoEntry(name: string, link: string)

  function Max3(a: nat, b: nat, c: nat): (m: nat)
    ensures a <= m && b <= m && c <= m && (m == a || m == b || m == c)
  {
    if a >= b && a >= c then a else if b >= c then b else c
  }

  /** Python truthiness of an optional string: present and non-empty. */
  predicate Truthy(v: Option<string>)
  {
    v.Some? && v.value != ""
  }

  /** `cell.hyperlink.target if cell.hyperlink else None`. */
  function LinkOf(cell: Cell): Option<string>
  {
    if cell.hyperlink.Some? then cell.hyperlink.value.target else None
  }

  /** `str()` of an optional string cell value: `None` prints as `None`. */
  function Str(v: Option<string>): string
  {
    if v.Some? then v.value else "None"
  }

  /** `clean_filename(f"{title} ({extra_info})")`. */
  function DisplayName(title: string, extra: Option<string>): string
  {
    CleanFilename(title + " (" + Str(extra) + ")")
  }

  /** The row is long enough for all three columns, has a title and a hyperlink target. */
  predicate Qualifies(row: Row, m: ColumnMapping)
  {
    |row| > Max3(m.name, m.extra, m.link) && Truthy(row[m.name].value) && Truthy(LinkOf(row[m.link]))
  }

  function EntryOf(row: Row, m: ColumnMapping): VideoEntry
    requires Qualifies(row, m)
  {
    VideoEntry(DisplayName(row[m.name].value.value, row[m.extra].value), LinkOf(row[m.link]).value)
  }

  function Names(es: seq<VideoEntry>): seq<string>
  {
    seq(|es|, k requires 0 <= k < |es| => es[k].name)
  }

  function Links(es: seq<VideoEntry>): seq<string>
  {
    seq(|es|, k requires 0 <= k < |es| => es[k].link)
  }

  /**
   * The sheet row indices among 1 .. n-1 that contribute, in order (row 0
   * is the header): each is a qualifying data row.
   */
  function SourceRows(sheet: seq<Row>, m: ColumnMapping, n: nat): (src: seq<nat>)
    requires n <= |sheet|
    ensures forall k :: 0 <= k < |src| ==> 1 <= src[k] < n && Qualifies(sheet[src[k]], m)
    decreases n
  {
    if n <= 1 then []
    else SourceRows(sheet, m, n - 1) + (if Qualifies(sheet[n - 1], m) then [n - 1] else [])
  }

  /** The work list: one entry per contributing row, in row order. */
  function SheetEntries(sheet: seq<Row>, m: ColumnMapping): seq<VideoEntry>
  {
    var src := SourceRows(sheet, m, |sheet|);
    seq(|src|, k requires 0 <= k < |src| => EntryOf(sheet[src[k]], m))
  }

  /** One more row: the contributing rows grow by that row exactly when it qualifies. */
  lemma SourceRowsNext(sheet: seq<Row>, m: ColumnMapping, i: nat)
    requires 1 <= i < |sheet|
    ensures SourceRows(sheet, m, i + 1) == SourceRows(sheet, m, i) + (if Qualifies(sheet[i], m) then [i] else [])
  {
  }

  /**
   * The contributing rows are listed in strictly increasing order, and every
   * qualifying data row is among them: a row contributes exactly when it
   * qualifies, and the header row never does.
   */
  lemma SourceRowsExact(sheet: seq<Row>, m: ColumnMapping, n: nat)
    requires n <= |sheet|
    ensures var src := SourceRows(sheet, m, n);
      && (forall k, l :: 0 <= k < l < |src| ==> src[k] < src[l])
      && (forall i :: 0 <= i < |sheet| ==> (i in src <==> 1 <= i < n && Qualifies(sheet[i], m)))
  {
    SourceRowsIncreasing(sheet, m, n);
    SourceRowsComplete(sheet, m, n);
  }

  /** The row indices are listed in strictly increasing order. */
  predicate Increasing(src: seq<nat>)
  {
    forall k, l :: 0 <= k < l < |src| ==> src[k] < src[l]
  }

  lemma {:induction false} SourceRowsIncreasing(sheet: seq<Row>, m: ColumnMapping, n: nat)
    requires n <= |sheet|
    ensures Increasing(SourceRows(sheet, m, n))
    decreases n
  {
    if n > 1 {
      SourceRowsIncreasing(sheet, m, n - 1);
      var src0 := SourceRows(sheet, m, n - 1);
      var tail: seq<nat> := if Qualifies(sheet[n - 1], m) then [n - 1] else [];
      var src := src0 + tail;
      assert src == SourceRows(sheet, m, n);
      forall k, l | 0 <= k < l < |src|
        ensures src[k] < src[l]
      {
        assert src[k] == src0[k] && src0[k] < n - 1;
        if l < |src0| {
          assert src[l] == src0[l];
        } else {
          assert src[l] == tail[0] == n - 1;
        }
      }
    }
  }

  lemma {:induction false} SourceRowsComplete(sheet: seq<Row>, m: ColumnMapping, n: nat)
    requires n <= |sheet|
    ensures var src := SourceRows(sheet, m, n);
      forall i :: 0 <= i < |sheet| ==> (i in src <==> 1 <= i < n && Qualifies(sheet[i], m))
    decreases n
  {
    if n > 1 {
      SourceRowsComplete(sheet, m, n - 1);
      var src0 := SourceRows(sheet, m, n - 1);
      var tail: seq<nat> := if Qualifies(sheet[n - 1], m) then [n - 1] else [];
      var src := src0 + tail;
      assert src == SourceRows(sheet, m, n);
      forall i | 0 <= i < |sheet|
        ensures i in src <==> 1 <= i < n && Qualifies(sheet[i], m)
      {
        assert i in src <==> i in src0 || i in tail;
      }
    }
  }

  /** Every stored name is in the sanitiser's normal form, and every link is non-empty. */
  lemma EntryNamesClean(sheet: seq<Row>, m: ColumnMapping)
    ensures forall e :: e in SheetEntries(sheet, m) ==> IsCleanName(e.name) && e.link != ""
  {
    forall e | e in SheetEntries(sheet, m)
      ensures IsCleanName(e.name) && e.link != ""
    {
      var src := SourceRows(sheet, m, |sheet|);
      var k :| 0 <= k < |src| && SheetEntries(sheet, m)[k] == e;
      var row := sheet[src[k]];
      CleanFilenameIsClean(row[m.name].value.value + " (" + Str(row[m.extra].value) + ")");
    }
  }

  /** `names` and `links` hold, position by position, the name and link of each row listed in `src`. */
  predicate Agrees(sheet: seq<Row>, m: ColumnMapping, src: seq<nat>, names: seq<string>, links: seq<string>)
  {
    && |names| == |links| == |src|
    && (forall k :: 0 <= k < |src| ==> src[k] < |sheet| && Qualifies(sheet[src[k]], m))
    && (forall k :: 0 <= k < |src| ==> names[k] == EntryOf(sheet[src[k]], m).name)
    && (forall k :: 0 <= k < |src| ==> links[k] == EntryOf(sheet[src[k]], m).link)
  }

  /** Appending a qualifying row's name and link keeps the lists in step with `src`. */
  lemma AgreesExtend(sheet: seq<Row>, m: ColumnMapping, src: seq<nat>, names: seq<string>, links: seq<string>, i: nat)
    requires Agrees(sheet, m, src, names, links)
    requires i < |sheet| && Qualifies(sheet[i], m)
    ensures Agrees(sheet, m, src + [i], names + [EntryOf(sheet[i], m).name], links + [EntryOf(sheet[i], m).link])
  {
  }

  /**
   * The extraction loop: `names` and `links` always grow together, and at
   * the end they hold the names and links of `SheetEntries`, in order.
   */
  method ExtractVideos(sheet: seq<Row>, m: ColumnMapping) returns (names: seq<string>, links: seq<string>)
    ensures |names| == |links|
    ensures names == Names(SheetEntries(sheet, m)) && links == Links(SheetEntries(sheet, m))
  {
    names, links := [], [];
    ghost var src: seq<nat> := [];
    var i: nat := 1;
    while i < |sheet|
      invariant 1 <= i && (i <= |sheet| || sheet == [])
      invariant src == SourceRows(sheet, m, if sheet == [] then 0 else i)
      invariant Agrees(sheet, m, src, names, links)
    {
      SourceRowsNext(sheet, m, i);
      var row := sheet[i];
      if |row| > Max3(m.name, m.extra, m.link) {
        var title := row[m.name].value;
        var extra := row[m.extra].value;
        var link := LinkOf(row[m.link]);
        if Truthy(title) && Truthy(link) {
          AgreesExtend(sheet, m, src, names, links, i);
          names := names + [DisplayName(title.value, extra)];
          links := links + [link.value];
          src := src + [i];
        }
      }
      i := i + 1;
    }
    ListsOfEntries(sheet, m, src, names, links);
  }

  /** Lists in step with all the contributing rows are the names and links of the work list. */
  lemma ListsOfEntries(sheet: seq<Row>, m: ColumnMapping, src: seq<nat>, names: seq<string>, links: seq<string>)
    requires src == SourceRows(sheet, m, |sheet|)
    requires Agrees(sheet, m, src, names, links)
    ensures names == Names(SheetEntries(sheet, m)) && links == Links(SheetEntries(sheet, m))
  {
  }

  /**
   * A header, a titled linked row and an untitled linked row give exactly
   * one entry, named from the first data row's title and extra information;
   * its link is the hyperlink's target, not the text the cell displays.
   */
  lemma UntitledRowDropped(x: string, y: string)
    requires x != "" && y != ""
    ensures var sheet := [
        [Cell(Some("Title"), None), Cell(Some("Info"), None), Cell(Some("Link"), None)],
        [Cell(Some("Title1"), None), Cell(Some("info"), None), Cell(Some("Watch"), Some(Hyperlink(Some(x))))],
        [Cell(Some(""), None), Cell(Some("info2"), None), Cell(Some("Watch"), Some(Hyperlink(Some(y))))]];
      SheetEntries(sheet, ColumnMapping(0, 1, 2)) == [VideoEntry("Title1 (info)", x)]
  {
    var sheet := [
        [Cell(Some("Title"), None), Cell(Some("Info"), None), Cell(Some("Link"), None)],
        [Cell(Some("Title1"), None), Cell(Some("info"), None), Cell(Some("Watch"), Some(Hyperlink(Some(x))))],
        [Cell(Some(""), None), Cell(Some("info2"), None), Cell(Some("Watch"), Some(Hyperlink(Some(y))))]];
    var m := ColumnMapping(0, 1, 2);
    assert Qualifies(sheet[1], m) && !Qualifies(sheet[2], m);
    assert SourceRows(sheet, m, 3) == [1];
    TitleWithInfoName();
    assert EntryOf(sheet[1], m) == VideoEntry("Title1 (info)", x);
  }

  /**
   * Only a hyperlink's target counts as a link: a row whose link cell shows a
   * URL as plain text, and a row whose hyperlink has no target, give no entry.
   */
  lemma UnlinkedRowsDropped(url: string)
    requires url != ""
    ensures var sheet := [
        [Cell(Some("Title"), None), Cell(Some("Info"), None), Cell(Some("Link"), None)],
        [Cell(Some("Plain"), None), Cell(Some("info"), None), Cell(Some(url), None)],
        [Cell(Some("Empty"), None), Cell(Some("info"), None), Cell(Some(url), Some(Hyperlink(None)))]];
      SheetEntries(sheet, ColumnMapping(0, 1, 2)) == []
  {
    var sheet := [
        [Cell(Some("Title"), None), Cell(Some("Info"), None), Cell(Some("Link"), None)],
        [Cell(Some("Plain"), None), Cell(Some("info"), None), Cell(Some(url), None)],
        [Cell(Some("Empty"), None), Cell(Some("info"), None), Cell(Some(url), Some(Hyperlink(None)))]];
    var m := ColumnMapping(0, 1, 2);
    assert !Qualifies(sheet[1], m) && !Qualifies(sheet[2], m);
    assert SourceRows(sheet, m, 3) == [];
  }

  /** A name that is already clean is kept as `title (extra)`. */
  lemma TitleWithInfoName()
    ensures DisplayName("Title1", Some("info")) == "Title1 (info)"
  {
    var name := "Title1 (info)";
    assert "Title1" + " (" + Str(Some("info")) + ")" == name;
    assert forall i :: 0 <= i < |name| && IsSpace(name[i]) ==> i == 6;
    assert IsCleanName(name);
    CleanFilenameFixesCleanName(name);
  }

  /** An empty extra-information cell is printed by `str(None)`, so the name ends in `(None)`. */
  lemma MissingInfoName()
    ensures DisplayName("Song", None) == "Song (None)"
  {
    var name := "Song (None)";
    assert "Song" + " (" + Str(None) + ")" == name;
    assert forall i :: 0 <= i < |name| && IsSpace(name[i]) ==> i == 4;
    assert IsCleanName(name);
    CleanFilenameFixesCleanName(name);
  }
  /**
   * A title ending in a space meets the separator's space: the run of two
   * becomes one space, it does not vanish.
   */
  lemma TrailingSpaceTitleName()
    ensures DisplayName("Foo ", Some("x")) == "Foo (x)"
  {
    var x, w, y := "Foo", "  ", "(x)";
    assert "Foo " + " (" + Str(Some("x")) + ")" == x + w + y;
    assert forall i :: 0 <= i < |x| ==> !IsSpace(x[i]);
    assert forall i :: 0 <= i < |y| ==> !IsSpace(y[i]);
    assert IsCleanName(x) && IsCleanName(y);
    CleanFilenameJoinsWords(x, w, y);
  }
  /** A line break inside a title becomes one space. */
  lemma NewlineTitleName()
    ensures DisplayName("Foo\nBar", Some("x")) == "Foo Bar (x)"
  {
    var x, w, y := "Foo", "\n", "Bar (x)";
    assert "Foo\nBar" + " (" + Str(Some("x")) + ")" == x + w + y;
    assert forall i :: 0 <= i < |x| ==> !IsSpace(x[i]);
    assert forall i :: 0 <= i < |y| && IsSpace(y[i]) ==> i == 3;
    assert IsCleanName(x) && IsCleanName(y) && AllSpace(w);
    CleanFilenameJoinsWords(x, w, y);
    assert x + " " + y == "Foo Bar (x)";
  }
}
