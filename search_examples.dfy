/** The suggestions the page's own index yields for sample queries. Each
    entry that does not match lacks some letter of the query in both cases. */
module SearchExamples {
  import opened Text
  import opened Search

  /** "JavaScript" contains "script" from position 4 once lower-cased. */
  lemma JavaScriptContainsScript()
    ensures Contains(Lower("JavaScript"), "script")
  {
    OccursAtPointwise(Lower("JavaScript"), "script", 4);
  }

  /** Positions of the entries the examples find. */
  lemma EntriesFound()
    ensures SearchData[1] == "JavaScript"
    ensures SearchData[4] == "Node.js" && SearchData[7] == "Node.js"
  {
  }

  /** The sample queries are already in lower case. */
  lemma QueriesAreLowerCase()
    ensures Lower("script") == "script"
    ensures Lower("node") == "node"
    ensures Lower("xyz123") == "xyz123"
  {
    LowerOfLowerCase("script");
    LowerOfLowerCase("node");
    LowerOfLowerCase("xyz123");
  }

  lemma ScriptMatchesJavaScript()
    ensures Matches(SearchData[1], "script")
  {
    EntriesFound();
    QueriesAreLowerCase();
    JavaScriptContainsScript();
  }

  lemma ScriptMissesSkill(i: nat)
    requires i < 12 && i != 1
    ensures !Contains(Lower(SearchData[i]), "script")
  {
    var e := SearchData[i];
    if i == 0 || i == 6 {
      MissingLetterNotContained(e, "script", 'p', 'P');
    } else if i == 4 || 7 <= i <= 9 || i == 11 {
      MissingLetterNotContained(e, "script", 'c', 'C');
    } else {
      MissingLetterNotContained(e, "script", 's', 'S');
    }
  }

  lemma ScriptMissesProject(i: nat)
    requires 12 <= i < |SearchData|
    ensures !Contains(Lower(SearchData[i]), "script")
  {
    var e := SearchData[i];
    if i == 15 {
      MissingLetterNotContained(e, "script", 'c', 'C');
    } else {
      MissingLetterNotContained(e, "script", 's', 'S');
    }
  }

  /** Apart from "JavaScript" (position 1) no entry matches "script". */
  lemma ScriptMissesOthers()
    ensures forall i :: 0 <= i < |SearchData| && i != 1 ==> !Matches(SearchData[i], "script")
  {
    QueriesAreLowerCase();
    forall i | 0 <= i < |SearchData| && i != 1
      ensures !Matches(SearchData[i], "script")
    {
      if i < 12 {
        ScriptMissesSkill(i);
      } else {
        ScriptMissesProject(i);
      }
    }
  }

  /** "script" suggests exactly "JavaScript". */
  lemma MatchScript()
    ensures Match(SearchData, "script") == ["JavaScript"]
  {
    ScriptMatchesOnlyAt1();
    EntriesFound();
  }

  lemma ScriptMatchesOnlyAt1()
    ensures Match(SearchData, "script") == [SearchData[1]]
  {
    ScriptMatchesJavaScript();
    ScriptMissesOthers();
    MatchOnlyAt(SearchData, "script", 1);
  }

  /** Typed in capitals the query suggests the same. */
  lemma MatchScriptUpperCase()
    ensures Match(SearchData, "SCRIPT") == ["JavaScript"]
  {
    QueriesAreLowerCase();
    assert Lower("SCRIPT") == "script";
    MatchCaseInsensitive(SearchData, "SCRIPT", "script");
    MatchScript();
  }

  /** "Node.js" contains "node" from position 0 once lower-cased. */
  lemma NodeJsContainsNode()
    ensures Contains(Lower("Node.js"), "node")
  {
    OccursAtPointwise(Lower("Node.js"), "node", 0);
  }

  lemma NodeMatchesBoth()
    ensures Matches(SearchData[4], "node") && Matches(SearchData[7], "node")
  {
    EntriesFound();
    QueriesAreLowerCase();
    NodeJsContainsNode();
  }

  lemma NodeMissesSkill(i: nat)
    requires i < 12 && i != 4 && i != 7
    ensures !Contains(Lower(SearchData[i]), "node")
  {
    var e := SearchData[i];
    if i == 5 || i == 8 || i == 11 {
      MissingLetterNotContained(e, "node", 'd', 'D');
    } else {
      MissingLetterNotContained(e, "node", 'n', 'N');
    }
  }

  lemma NodeMissesProject(i: nat)
    requires 12 <= i < |SearchData|
    ensures !Contains(Lower(SearchData[i]), "node")
  {
    var e := SearchData[i];
    if i == 12 || i == 13 {
      MissingLetterNotContained(e, "node", 'o', 'O');
    } else {
      MissingLetterNotContained(e, "node", 'n', 'N');
    }
  }

  /** Only the two "Node.js" entries (positions 4 and 7) match "node". */
  lemma NodeMissesOthers()
    ensures forall i :: 0 <= i < |SearchData| && i != 4 && i != 7 ==> !Matches(SearchData[i], "node")
  {
    QueriesAreLowerCase();
    forall i | 0 <= i < |SearchData| && i != 4 && i != 7
      ensures !Matches(SearchData[i], "node")
    {
      if i < 12 {
        NodeMissesSkill(i);
      } else {
        NodeMissesProject(i);
      }
    }
  }

  /** "node" suggests "Node.js" twice: the duplicate in the index is kept. */
  lemma MatchNode()
    ensures Match(SearchData, "node") == ["Node.js", "Node.js"]
  {
    NodeMatchesAt4And7();
    EntriesFound();
  }

  lemma NodeMatchesAt4And7()
    ensures Match(SearchData, "node") == [SearchData[4], SearchData[7]]
  {
    NodeMatchesBoth();
    NodeMissesOthers();
    MatchOnlyAtTwo(SearchData, "node", 4, 7);
  }

  lemma XyzMisses(i: nat)
    requires i < |SearchData|
    ensures !Contains(Lower(SearchData[i]), "xyz123")
  {
    MissingLetterNotContained(SearchData[i], "xyz123", '1', '1');
  }

  /** "xyz123" suggests nothing: no entry has the digit 1. */
  lemma MatchNothing()
    ensures Match(SearchData, "xyz123") == []
  {
    QueriesAreLowerCase();
    forall i | 0 <= i < |SearchData|
      ensures !Matches(SearchData[i], "xyz123")
    {
      XyzMisses(i);
    }
    MatchNone(SearchData, "xyz123");
  }

  /** A single character is handed nothing, whatever it matches. */
  lemma SuggestOneCharacter()
    ensures Suggest(SearchData, "s") == []
  {
  }

  /** At two characters and more the widget is handed the filter's output. */
  lemma SuggestScript()
    ensures Suggest(SearchData, "script") == ["JavaScript"]
  {
    SuggestIsMatch(SearchData, "script");
    MatchScript();
  }
}
