/** Where the page's own suggestions, and a few other selections, lead. */
module RouterExamples {
  import opened Text
  import opened Search
  import opened Router

  /** One character of each indicator, in order, that most skills lack. */
  const Absent: seq<char> := ['W', 'A', 'l', 'N', 'A', 'F', 'D']

  /** The twelve skills contain no indicator. Each "Node.js" has the "N" of
      "Nutrify" and "AWS" the "A" and "W" of three indicators, so they are
      shown to lack other characters. */
  lemma SkillsAreNotProjects(i: nat)
    requires i < 12
    ensures !IsProject(SearchData[i])
  {
    if i == 4 || i == 7 {
      NotProjectByChars(SearchData[i], ['W', 'A', 'l', 'u', 'A', 'F', 'D']);
    } else if i == 9 {
      NotProjectByChars(SearchData[i], ['e', 'p', 'l', 'N', 'R', 'F', 'D']);
    } else if i < 6 {
      FirstSkillsAreNotProjects(i);
    } else {
      LastSkillsAreNotProjects(i);
    }
  }

  lemma FirstSkillsAreNotProjects(i: nat)
    requires i < 6 && i != 4
    ensures !IsProject(SearchData[i])
  {
    NotProjectByChars(SearchData[i], Absent);
  }

  lemma LastSkillsAreNotProjects(i: nat)
    requires 6 <= i < 12 && i != 7 && i != 9
    ensures !IsProject(SearchData[i])
  {
    NotProjectByChars(SearchData[i], Absent);
  }

  /** "Project" contains no indicator either: it is not "Platform". */
  lemma ProjectEntryIsNotProject()
    ensures !IsProject(SearchData[17])
  {
    NotProjectByChars(SearchData[17], Absent);
  }

  /** The five named projects each contain an indicator. */
  lemma NamedProjectsAreProjects(i: nat)
    requires 12 <= i < 17
    ensures IsProject(SearchData[i])
  {
    var e := SearchData[i];
    if i == 12 {
      ProjectByPrefix(e, 3);
    } else if i == 13 {
      ProjectByPrefix(e, 5);
    } else if i == 14 {
      ProjectByPrefix(e, 4);
    } else if i == 15 {
      assert OccursAt(e, ProjectIndicators[0], 10);
    } else {
      ProjectByPrefix(e, 1);
    }
  }

  /** Every entry of the index is routed: the five named projects to the
      project page, the skills and "Project" to the skills page. */
  lemma RouteSearchData(i: nat)
    requires i < |SearchData|
    ensures Route(SearchData[i]) == if 12 <= i < 17 then PortfolioPage else SkillsPage
  {
    if i < 12 {
      SkillsAreNotProjects(i);
    } else if i < 17 {
      NamedProjectsAreProjects(i);
    } else {
      ProjectEntryIsNotProject();
    }
  }

  /** Eight entries of the index: the five named projects, two skills and
      "Project". */
  lemma RouteExamples()
    ensures Route("Portfolio Website") == PortfolioPage
    ensures Route("App") == PortfolioPage
    ensures Route("Nutrify") == PortfolioPage
    ensures Route("RotAlert") == PortfolioPage
    ensures Route("FlameExchange") == PortfolioPage
    ensures Route("Python") == SkillsPage
    ensures Route("React.js") == SkillsPage
    ensures Route("Project") == SkillsPage
  {
    assert SearchData[5] == "Python" && SearchData[6] == "React.js";
    assert SearchData[12] == "Nutrify" && SearchData[13] == "FlameExchange";
    assert SearchData[14] == "RotAlert" && SearchData[15] == "Portfolio Website";
    assert SearchData[16] == "App" && SearchData[17] == "Project";
    RouteSearchData(5);
    RouteSearchData(6);
    RouteSearchData(12);
    RouteSearchData(13);
    RouteSearchData(14);
    RouteSearchData(15);
    RouteSearchData(16);
    RouteSearchData(17);
  }

  /** Indicators are matched case-sensitively: in lower case the portfolio
      website is routed as a skill. */
  lemma RouteIsCaseSensitive()
    ensures Route("portfolio website") == SkillsPage
  {
    NotProjectByChars("portfolio website", ['W', 'A', 'P', 'N', 'A', 'F', 'D']);
  }
}
