/** Where a selected suggestion leads: the project page when the selection
    names one of the known project kinds or projects, the skills page
    otherwise. The tests are case-sensitive. */
module Router {
  import opened Text

  datatype Destination = PortfolioPage | SkillsPage {
    /** The page the browser is sent to. */
    function Url(): (url: string) {
      match this
      case PortfolioPage => "portfolio.html"
      case SkillsPage => "skills.html"
    }
  }

  /** The substrings that mark a selection as a project, in the order the
      selection handler tests them. */
  const ProjectIndicators: seq<string> :=
    ["Website", "App", "Platform", "Nutrify", "RotAlert", "FlameExchange", "Dashboard"]

  /** The selection contains one of the indicators. */
  ghost predicate IsProject(selection: string) {
    exists k :: 0 <= k < |ProjectIndicators| && Contains(selection, ProjectIndicators[k])
  }

  /** The chain of `includes` tests is the same as asking for any indicator. */
  lemma IncludesChainIsProject(selection: string)
    ensures (Includes(selection, "Website") || Includes(selection, "App") ||
             Includes(selection, "Platform") || Includes(selection, "Nutrify") ||
             Includes(selection, "RotAlert") || Includes(selection, "FlameExchange") ||
             Includes(selection, "Dashboard"))
            <==> IsProject(selection)
  {
    var p := ProjectIndicators;
    assert p[0] == "Website" && p[1] == "App" && p[2] == "Platform" && p[3] == "Nutrify";
    assert p[4] == "RotAlert" && p[5] == "FlameExchange" && p[6] == "Dashboard";
  }

  /** The `select` handler: every selection has a destination, the project
      page exactly when it contains an indicator. */
  function Route(selection: string): (d: Destination)
    ensures d == PortfolioPage <==> IsProject(selection)
    ensures d == SkillsPage <==> !IsProject(selection)
  {
    IncludesChainIsProject(selection);
    if Includes(selection, "Website") || Includes(selection, "App") ||
       Includes(selection, "Platform") ||
       Includes(selection, "Nutrify") ||
       Includes(selection, "RotAlert") ||
       Includes(selection, "FlameExchange") || Includes(selection, "Dashboard")
    then PortfolioPage
    else SkillsPage
  }

  /** A selection lacking, for each indicator, one of its characters names
      no project. */
  lemma NotProjectByChars(selection: string, cs: seq<char>)
    requires |cs| == |ProjectIndicators|
    requires forall k :: 0 <= k < |cs| ==> cs[k] in ProjectIndicators[k] && cs[k] !in selection
    ensures !IsProject(selection)
  {
    forall k | 0 <= k < |ProjectIndicators|
      ensures !Contains(selection, ProjectIndicators[k])
    {
      MissingCharNotContained(selection, ProjectIndicators[k], cs[k]);
    }
  }

  /** A selection that begins with the `k`-th indicator names a project. */
  lemma ProjectByPrefix(selection: string, k: nat)
    requires k < |ProjectIndicators|
    requires |ProjectIndicators[k]| <= |selection|
    requires selection[..|ProjectIndicators[k]|] == ProjectIndicators[k]
    ensures IsProject(selection)
  {
    assert OccursAt(selection, ProjectIndicators[k], 0);
  }
}
