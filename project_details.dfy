/** The project page's tab selection from the current pathname. */
module ProjectDetails {
  import opened Text

  const Tabs := {"dashboard", "assets", "gameplay", "database"}

  /**
   * `getActiveTab`: `dashboard` on the project's own page; otherwise the
   * first of `/assets`, `/gameplay`, `/database` the path contains, in that
   * order; `dashboard` when it contains none. `projectId` is the route
   * parameter as template interpolation renders it.
   */
  function ActiveTab(pathname: string, projectId: string): (tab: string)
    ensures tab in Tabs
    ensures EndsWith(pathname, "/project/" + projectId) ==> tab == "dashboard"
    ensures !EndsWith(pathname, "/project/" + projectId) ==>
      (tab == "assets" <==> Contains(pathname, "/assets")) &&
      (tab == "gameplay" <==> !Contains(pathname, "/assets") && Contains(pathname, "/gameplay")) &&
      (tab == "database" <==> !Contains(pathname, "/assets") && !Contains(pathname, "/gameplay") && Contains(pathname, "/database"))
    ensures tab == "dashboard" <==>
      EndsWith(pathname, "/project/" + projectId) ||
      (!Contains(pathname, "/assets") && !Contains(pathname, "/gameplay") && !Contains(pathname, "/database"))
  {
    if EndsWith(pathname, "/project/" + projectId) then "dashboard"
    else if Contains(pathname, "/assets") then "assets"
    else if Contains(pathname, "/gameplay") then "gameplay"
    else if Contains(pathname, "/database") then "database"
    else "dashboard"
  }

  /** The project's own page, under any prefix, shows the dashboard. */
  lemma ProjectPageIsDashboard(prefix: string, projectId: string)
    ensures ActiveTab(prefix + "/project/" + projectId, projectId) == "dashboard"
  {
    var p := prefix + "/project/" + projectId;
    assert p[|p| - |"/project/" + projectId|..] == "/project/" + projectId;
  }

  /** An assets page selects the assets tab, whatever it also contains, unless the path ends in the project's own page. */
  lemma AssetsPageSelectsAssets(base: string, projectId: string)
    requires !EndsWith(base + "/assets", "/project/" + projectId)
    ensures ActiveTab(base + "/assets", projectId) == "assets"
  {
    ContainsAt(base + "/assets", "/assets", |base|);
  }
}
