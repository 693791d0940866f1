/**
 * The state controller of the dashboard component: the site list, the two text
 * boxes, the selected site, and the delete-confirmation dialog, with one method
 * per event handler. Each handler is one atomic transition of the state.
 */
module DashboardComponent {
  import opened Wrappers
  import opened Text
  import opened Seqs
  import opened Websites

  class Dashboard {
    /** The monitored sites, in the order they were added. */
    var websites: seq<Website>
    /** The text of the "add a new site" box. */
    var url: string
    /** The text of the search box. */
    var searchTerm: string
    /** A copy of the site whose row was last clicked, if any. */
    var selected: Option<Website>
    /** Whether the delete-confirmation dialog is open. */
    var deleteConfirmOpen: bool
    /** The id whose deletion awaits confirmation, if any. */
    var websiteToDelete: Option<string>

    /** Every id is a decimal numeral, and the dialog is open only while an id awaits deletion. */
    ghost predicate Valid()
      reads this
    {
      (forall w :: w in websites ==> IsDecimal(w.id)) &&
      (deleteConfirmOpen ==> websiteToDelete.Some?)
    }

    /** The selected copy, if any, is still one of the listed sites. */
    ghost predicate SelectionListed()
      reads this
    {
      selected.Some? ==> selected.value in websites
    }

    /** The component's first render: the two initial sites, empty boxes, nothing selected or pending. */
    constructor ()
      ensures Valid() && SelectionListed()
      ensures websites == InitialWebsites()
      ensures url == "" && searchTerm == ""
      ensures selected == None
      ensures !deleteConfirmOpen && websiteToDelete == None
    {
      websites := InitialWebsites();
      url := "";
      searchTerm := "";
      selected := None;
      deleteConfirmOpen := false;
      websiteToDelete := None;
    }

    /** Typing in the "add" box. */
    method SetUrl(text: string)
      requires Valid()
      modifies this
      ensures Valid()
      ensures url == text
      ensures websites == old(websites) && searchTerm == old(searchTerm) && selected == old(selected)
      ensures deleteConfirmOpen == old(deleteConfirmOpen) && websiteToDelete == old(websiteToDelete)
    {
      url := text;
    }

    /** Typing in the search box. */
    method SetSearchTerm(term: string)
      requires Valid()
      modifies this
      ensures Valid()
      ensures searchTerm == term
      ensures websites == old(websites) && url == old(url) && selected == old(selected)
      ensures deleteConfirmOpen == old(deleteConfirmOpen) && websiteToDelete == old(websiteToDelete)
    {
      searchTerm := term;
    }

    /**
     * The "Add URL" button. An empty box changes nothing; any other text, blank
     * or not, becomes a new site at the end of the list and the box is cleared.
     */
    method AddWebsite(now: int)
      requires Valid()
      modifies this
      ensures Valid()
      ensures old(url) == "" ==> websites == old(websites) && url == old(url)
      ensures old(url) != "" ==>
                websites == old(websites) + [NewWebsite(|old(websites)|, old(url), now)] && url == ""
      ensures old(url) != "" ==>
                var added := websites[|websites| - 1];
                |websites| == |old(websites)| + 1 &&
                websites[..|old(websites)|] == old(websites) &&
                added.id == NatToDecimal(|old(websites)| + 1) &&
                added.url == old(url) && added.isUp && added.trackingSince == now &&
                added.uptimePercentage == 100.0 && added.responseTime == 0 &&
                added.lastDowntime == None
      ensures searchTerm == old(searchTerm) && selected == old(selected)
      ensures deleteConfirmOpen == old(deleteConfirmOpen) && websiteToDelete == old(websiteToDelete)
      ensures old(SelectionListed()) ==> SelectionListed()
      ensures old(SequentialIds(websites)) ==> SequentialIds(websites)
    {
      if url != "" {
        var added := NewWebsite(|websites|, url, now);
        if SequentialIds(websites) {
          AppendKeepsSequential(websites, url, now);
        }
        websites := websites + [added];
        url := "";
      }
    }

    /** The trash button of a row: remember the row's id and open the dialog. */
    method OpenDeleteConfirm(id: string)
      requires Valid()
      modifies this
      ensures Valid()
      ensures websiteToDelete == Some(id) && deleteConfirmOpen
      ensures websites == old(websites) && url == old(url) && searchTerm == old(searchTerm)
      ensures selected == old(selected)
    {
      websiteToDelete := Some(id);
      deleteConfirmOpen := true;
    }

    /**
     * The dialog's "Delete" button. With no pending id, or the empty one, nothing
     * happens (the dialog stays as it is). Otherwise every site carrying the
     * pending id is removed, the selection is dropped if it carries that id, and
     * the dialog is closed with no id pending. Since listed ids are never empty,
     * confirming an id that a listed site carries always removes it and closes the dialog.
     */
    method DeleteWebsite()
      requires Valid()
      modifies this
      ensures Valid()
      ensures old(websiteToDelete) == None || old(websiteToDelete) == Some("") ==>
                websites == old(websites) && selected == old(selected) &&
                deleteConfirmOpen == old(deleteConfirmOpen) && websiteToDelete == old(websiteToDelete)
      ensures old(websiteToDelete).Some? && old(websiteToDelete).value != "" ==>
                var id := old(websiteToDelete).value;
                websites == WithoutId(old(websites), id) &&
                (selected == None <==> old(selected) == None || old(selected).value.id == id) &&
                (selected != None ==> selected == old(selected)) &&
                !deleteConfirmOpen && websiteToDelete == None
      ensures url == old(url) && searchTerm == old(searchTerm)
      ensures old(SelectionListed()) ==> SelectionListed()
      ensures old(websiteToDelete).Some? && HasId(old(websites), old(websiteToDelete).value) ==>
                websites == WithoutId(old(websites), old(websiteToDelete).value) &&
                !deleteConfirmOpen && websiteToDelete == None
    {
      if websiteToDelete.Some? && websiteToDelete.value != "" {
        var id := websiteToDelete.value;
        RemoveKeepsDecimalIds(websites, id);
        if selected.Some? && selected.value in websites && selected.value.id != id {
          RemoveKeepsOthers(websites, id, selected.value);
        }
        websites := WithoutId(websites, id);
        if selected.Some? && selected.value.id == id {
          selected := None;
        }
        deleteConfirmOpen := false;
        websiteToDelete := None;
      } else if websiteToDelete.Some? && HasId(websites, websiteToDelete.value) {
        ListedIdNotEmpty(websites, websiteToDelete.value);
        assert false;
      }
    }

    /**
     * Dismissing the dialog ("Cancel", or the dialog asking to close): only the
     * open flag changes; the pending id is kept.
     */
    method CloseDeleteConfirm()
      requires Valid()
      modifies this
      ensures Valid()
      ensures !deleteConfirmOpen
      ensures websiteToDelete == old(websiteToDelete)
      ensures websites == old(websites) && url == old(url) && searchTerm == old(searchTerm)
      ensures selected == old(selected)
    {
      deleteConfirmOpen := false;
    }

    /** Clicking a row: keep a copy of that row's site. */
    method Select(w: Website)
      requires Valid()
      modifies this
      ensures Valid()
      ensures selected == Some(w)
      ensures websites == old(websites) && url == old(url) && searchTerm == old(searchTerm)
      ensures deleteConfirmOpen == old(deleteConfirmOpen) && websiteToDelete == old(websiteToDelete)
      ensures SelectionListed() <==> w in websites
      ensures w in FilteredWebsites(websites, searchTerm) ==> SelectionListed()
    {
      selected := Some(w);
    }
  }

  // ---------------------------------------------------------------------------
  // Sessions on a fresh dashboard
  // ---------------------------------------------------------------------------

  /**
   * Select the site that the search "down" lists, ask to delete it and confirm:
   * the list keeps only example.com, the selection is gone, and the chart has
   * one point.
   */
  method SearchSelectDeleteSession() returns (listed: seq<Website>, remaining: seq<Website>,
                                             selection: Option<Website>, chart: seq<ChartPoint>)
    ensures |listed| == 1 && listed[0].id == "2" && listed[0].url == "https://downsite.com"
    ensures |remaining| == 1 && remaining[0].url == "https://example.com"
    ensures selection == None
    ensures chart == [ChartPoint("https://example.com", 15)]
  {
    var d := new Dashboard();
    d.SetSearchTerm("down");
    InitialSearchDown();
    listed := FilteredWebsites(d.websites, d.searchTerm);
    d.Select(listed[0]);
    d.OpenDeleteConfirm(listed[0].id);
    d.DeleteWebsite();
    d.CloseDeleteConfirm();
    InitialRemoveDownsite();
    remaining := d.websites;
    selection := d.selected;
    chart := DowntimeData(d.websites);
  }

  /**
   * Delete "1", then add any non-empty url: the new site is numbered "2", the
   * same id as the site that was kept.
   */
  method RemoveThenAddSession(siteUrl: string, now: int) returns (ids: seq<string>)
    requires siteUrl != ""
    ensures ids == ["2", "2"]
  {
    var d := new Dashboard();
    d.OpenDeleteConfirm("1");
    d.DeleteWebsite();
    d.SetUrl(siteUrl);
    d.AddWebsite(now);
    IdCollisionAfterRemoveThenAdd(siteUrl, now);
    ids := [d.websites[0].id, d.websites[1].id];
  }

  /** Ask to delete a site and cancel: the list is untouched, the dialog is closed, the id stays pending. */
  method CancelSession(id: string) returns (remaining: seq<Website>, open: bool, pending: Option<string>)
    ensures remaining == InitialWebsites()
    ensures !open
    ensures pending == Some(id)
  {
    var d := new Dashboard();
    d.OpenDeleteConfirm(id);
    d.CloseDeleteConfirm();
    remaining, open, pending := d.websites, d.deleteConfirmOpen, d.websiteToDelete;
  }

  /** A url of blanks only is not empty, so it is added. */
  method BlankUrlSession(now: int) returns (count: nat, lastUrl: string)
    ensures count == 3 && lastUrl == "   "
  {
    var d := new Dashboard();
    d.SetUrl("   ");
    d.AddWebsite(now);
    count := |d.websites|;
    lastUrl := d.websites[count - 1].url;
  }
}
