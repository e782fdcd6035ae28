/**
 * The run after the prompts (download_Luchia.py:53-137): the output folder
 * from the operator's answer, the rows turned into the work list, and the
 * work list handed to the download driver.
 */
module Batch {
  import opened Sanitizer
  import opened Extraction
  import opened Driver

  /**
   * One outcome per qualifying row, in row order, each the outcome of that
   * row's entry against the files that exist when it is reached.
   */
  method Run(folderAnswer: string, sheet: seq<Row>, m: ColumnMapping, files: set<string>, download: Downloader)
    returns (outcomes: seq<Outcome>, calls: seq<nat>, filesAfter: set<string>)
    ensures |outcomes| == |SheetEntries(sheet, m)|
    ensures var es := SheetEntries(sheet, m);
      Report(outcomes, calls, filesAfter) == Drive(OutputFolder(folderAnswer), Names(es), Links(es), files, download, |es|)
  {
    var folder := OutputFolder(folderAnswer);
    var names, links := ExtractVideos(sheet, m);
    outcomes, calls, filesAfter := DownloadAll(folder, names, links, files, download);
  }

  /** Two entries of the work list share an output path only when they share a name. */
  lemma DistinctNamesDistinctPaths(folder: string, sheet: seq<Row>, m: ColumnMapping, k: nat, l: nat)
    requires k < |SheetEntries(sheet, m)| && l < |SheetEntries(sheet, m)|
    ensures var es := SheetEntries(sheet, m);
      MediaPath(folder, es[k].name) == MediaPath(folder, es[l].name) <==> es[k].name == es[l].name
  {
    var es := SheetEntries(sheet, m);
    EntryNamesClean(sheet, m);
    assert es[k] in es && es[l] in es;
    NoSlashInCleanName(es[k].name);
    NoSlashInCleanName(es[l].name);
    MediaPathShape(folder, es[k].name, es[l].name);
  }

  lemma NoSlashInCleanName(name: string)
    requires IsCleanName(name)
    ensures '/' !in name
  {
  }
}
