/** The per-browser-session state of the page: which page is shown, whether the menu is open, which record
    the overview shows in detail, and where the map starts. */
module Navigation {
  import opened Wrappers
  import opened Geocoding

  const Overview: string := "Übersicht"

  class Session {
    var page: string
    var menuOpen: bool
    var detailId: Option<string>
    var mapCenter: Point
    var mapZoom: nat

    /** A new session starts on the overview, menu closed, no record selected, the map over Lichtenberg. */
    constructor ()
      ensures page == Overview && !menuOpen && detailId.None?
      ensures mapCenter == Point(52.51, 13.48) && mapZoom == 13
    {
      page := Overview;
      menuOpen := false;
      mapCenter := Point(52.51, 13.48);
      mapZoom := 13;
      detailId := None;
    }

    /** `set_page`: switch to the named page, leaving any detail view and closing the menu. */
    method SetPage(name: string)
      modifies this
      ensures page == name && detailId.None? && !menuOpen
      ensures mapCenter == old(mapCenter) && mapZoom == old(mapZoom)
    {
      page := name;
      detailId := None;
      menuOpen := false;
    }

    /** `toggle_menu`: open a closed menu, close an open one; nothing else changes. */
    method ToggleMenu()
      modifies this
      ensures menuOpen == !old(menuOpen)
      ensures page == old(page) && detailId == old(detailId)
      ensures mapCenter == old(mapCenter) && mapZoom == old(mapZoom)
    {
      menuOpen := !menuOpen;
    }

    /** Choosing a record in the overview list shows it in detail. */
    method OpenDetail(id: string)
      modifies this
      ensures detailId == Some(id)
      ensures page == old(page) && menuOpen == old(menuOpen)
      ensures mapCenter == old(mapCenter) && mapZoom == old(mapZoom)
    {
      detailId := Some(id);
    }

    /** "Zurück zur Liste" returns from the detail view to the list. */
    method CloseDetail()
      modifies this
      ensures detailId.None?
      ensures page == old(page) && menuOpen == old(menuOpen)
      ensures mapCenter == old(mapCenter) && mapZoom == old(mapZoom)
    {
      detailId := None;
    }
  }
}
