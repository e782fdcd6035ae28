/**
 * Choosing the spreadsheet (download_Luchia.py:16-43) and the `OK`
 * confirmation (download_Luchia.py:46-50). The directory listing and the
 * operator's answers are parameters; the re-prompting loop is reduced to the
 * test that ends it.
 */
module Selection {
  import opened Wrappers
  import opened Text

  const Extension := ".xlsx"

  /** `name.endswith(suffix)`. */
  predicate EndsWith(name: string, suffix: string)
  {
    |suffix| <= |name| && name[|name| - |suffix|..] == suffix
  }

  /** `[file for file in listing if file.endswith('.xlsx')]`. */
  function XlsxFiles(listing: seq<string>): (r: seq<string>)
    ensures forall f :: f in r ==> EndsWith(f, Extension)
    ensures forall f :: EndsWith(f, Extension) ==> multiset(r)[f] == multiset(listing)[f]
  {
    if listing == [] then []
    else
      assert listing == [listing[0]] + listing[1..];
      (if EndsWith(listing[0], Extension) then [listing[0]] else []) + XlsxFiles(listing[1..])
  }

  /** Where the search for a spreadsheet ends before any number is asked for. */
  datatype Located = NotFound | Selected(file: string) | MustChoose(candidates: seq<string>)

  function Locate(listing: seq<string>): Located
  {
    var candidates := XlsxFiles(listing);
    if |candidates| == 0 then NotFound
    else if |candidates| == 1 then Selected(candidates[0])
    else MustChoose(candidates)
  }

  /**
   * No spreadsheet is a fatal error, a single one is taken without a question,
   * and otherwise the operator chooses among all of them, in listing order.
   */
  lemma LocateOutcomes(listing: seq<string>)
    ensures Locate(listing) == NotFound <==> forall f :: f in listing ==> !EndsWith(f, Extension)
    ensures Locate(listing).Selected? <==> |XlsxFiles(listing)| == 1
    ensures Locate(listing).Selected? ==>
      Locate(listing).file == XlsxFiles(listing)[0] && Locate(listing).file in listing && EndsWith(Locate(listing).file, Extension)
    ensures Locate(listing).MustChoose? <==> |XlsxFiles(listing)| >= 2
    ensures Locate(listing).MustChoose? ==> Locate(listing).candidates == XlsxFiles(listing)
  {
  }

  /** The answer `choice` to the numbered list is accepted when it is in 1..n; it picks entry `choice`. */
  function Choose(candidates: seq<string>, choice: int): (r: Option<string>)
    ensures r.Some? <==> 1 <= choice <= |candidates|
    ensures r.Some? ==> r.value == candidates[choice - 1]
  {
    if 1 <= choice <= |candidates| then Some(candidates[choice - 1]) else None
  }

  /** Every candidate is reachable by exactly its own number when the names are distinct. */
  lemma ChooseReachesEach(candidates: seq<string>, k: nat)
    requires k < |candidates|
    requires forall i, j :: 0 <= i < j < |candidates| ==> candidates[i] != candidates[j]
    ensures forall choice :: Choose(candidates, choice) == Some(candidates[k]) <==> choice == k + 1
  {
  }

  /** The run goes on only when the stripped answer, upper-cased, is `OK`. */
  predicate Confirmed(answer: string)
  {
    Upper(Strip(answer)) == "OK"
  }

  lemma ConfirmedIff(answer: string)
    ensures Confirmed(answer) <==> Strip(answer) in {"OK", "Ok", "oK", "ok"}
  {
    var t := Strip(answer);
    if Confirmed(answer) || t in {"OK", "Ok", "oK", "ok"} {
      assert Upper(t)[0] == UpperChar(t[0]) && Upper(t)[1] == UpperChar(t[1]);
      assert t == [t[0], t[1]];
    }
  }
}
