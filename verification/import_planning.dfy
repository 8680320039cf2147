/**
 * The planning import page: the external plannings offered, the names of
 * those already imported, and the download of one planning with its
 * progress; each planning shows as imported, downloading or offered.
 */
module ImportPlanning {
  import opened Common
  import opened Lists

  /** An external planning as the server lists it. */
  datatype Planning = Planning(externalId: string, name: string, description: string)

  /** A planning already in the user's own list; only its name is used. */
  datatype LocalPlanning = LocalPlanning(name: string)

  /** What the right-hand side of a planning's row shows. */
  datatype RowStatus = AlreadyImported | Downloading(progress: int) | DownloadButton

  const ImportError: string := "Erreur lors de l'importation du planning"

  function LocalName(p: LocalPlanning): string {
    p.name
  }

  /** The row's status: imported wins over downloading, which wins over the
      button. */
  function Status(importedNames: seq<string>, downloadingId: Option<string>, progress: int, p: Planning): (r: RowStatus)
    ensures r == AlreadyImported <==> p.name in importedNames
    ensures r.Downloading? <==> p.name !in importedNames && downloadingId == Some(p.externalId)
    ensures r.Downloading? ==> r.progress == progress
    ensures r == DownloadButton <==> p.name !in importedNames && downloadingId != Some(p.externalId)
  {
    if p.name in importedNames then AlreadyImported
    else if downloadingId == Some(p.externalId) then Downloading(progress)
    else DownloadButton
  }

  class ImportPage {
    var plannings: seq<Planning>
    var importedNames: seq<string>
    var loading: bool
    var downloadingId: Option<string>
    var progress: int

    function RowOf(p: Planning): RowStatus
      reads this
    {
      Status(importedNames, downloadingId, progress, p)
    }

    constructor()
      ensures plannings == [] && importedNames == [] && loading
      ensures downloadingId == None && progress == 0
    {
      plannings, importedNames, loading := [], [], true;
      downloadingId, progress := None, 0;
    }

    /** `loadPageData()`: the external plannings and the local names, in
        order, when both requests succeed; loading ends either way. */
    method Load(result: Fetched<(seq<Planning>, seq<LocalPlanning>)>)
      modifies this
      ensures result.Received? ==> plannings == result.data.0 && importedNames == Map(result.data.1, LocalName)
      ensures result.Received? ==> forall i :: 0 <= i < |result.data.1| ==>
        forall p: Planning :: p.name == result.data.1[i].name ==> RowOf(p) == AlreadyImported
      ensures result.Failed? ==> plannings == old(plannings) && importedNames == old(importedNames)
      ensures !loading && downloadingId == old(downloadingId) && progress == old(progress)
    {
      if result.Received? {
        plannings := result.data.0;
        importedNames := Map(result.data.1, LocalName);
        forall i, p: Planning | 0 <= i < |result.data.1| && p.name == result.data.1[i].name
          ensures RowOf(p) == AlreadyImported
        {
          assert importedNames[i] == p.name;
        }
      }
      loading := false;
    }

    /** `downloadPlanning(planning)` up to the request: the row shows the
        download at 30%. */
    method StartDownload(planning: Planning)
      modifies this
      ensures downloadingId == Some(planning.externalId) && progress == 30
      ensures plannings == old(plannings) && importedNames == old(importedNames) && loading == old(loading)
      ensures planning.name !in importedNames ==> RowOf(planning) == Downloading(30)
    {
      downloadingId := Some(planning.externalId);
      progress := 30;
    }

    /** The rest of `downloadPlanning(planning)` once the request settles:
        on success 100% and the name appended, so the row shows the
        planning as imported; on failure an alert, the download cleared and
        the names unchanged. Returns the alert. */
    method FinishDownload(planning: Planning, succeeded: bool) returns (alert: Option<string>)
      modifies this
      ensures plannings == old(plannings) && loading == old(loading)
      ensures succeeded ==> importedNames == old(importedNames) + [planning.name] && progress == 100
      ensures succeeded ==> downloadingId == old(downloadingId) && alert.None?
      ensures succeeded ==> RowOf(planning) == AlreadyImported
      ensures !succeeded ==> importedNames == old(importedNames) && downloadingId.None? && progress == old(progress)
      ensures !succeeded ==> alert == Some(ImportError)
      ensures !succeeded ==> forall p: Planning :: p.name !in importedNames ==> RowOf(p) == DownloadButton
    {
      if succeeded {
        progress := 100;
        importedNames := importedNames + [planning.name];
        alert := None;
      } else {
        alert := Some(ImportError);
        downloadingId := None;
      }
    }

    /** The `setTimeout` half a second after a success. */
    method DownloadTimerFires()
      modifies this
      ensures downloadingId.None?
      ensures plannings == old(plannings) && importedNames == old(importedNames)
      ensures progress == old(progress) && loading == old(loading)
    {
      downloadingId := None;
    }
  }

  /** A started then successful download leaves every row that was
      imported still imported and adds the downloaded planning; a failed one
      brings the row back to its button. */
  lemma DownloadOutcome(names: seq<string>, planning: Planning, p: Planning)
    ensures Status(names, None, 0, p) == AlreadyImported ==>
      Status(names + [planning.name], Some(planning.externalId), 100, p) == AlreadyImported
    ensures Status(names + [planning.name], Some(planning.externalId), 100, planning) == AlreadyImported
    ensures planning.name !in names ==> Status(names, None, 30, planning) == DownloadButton
  {
    if p.name in names {
      assert p.name in names + [planning.name];
    }
    assert (names + [planning.name])[|names|] == planning.name;
  }
}
