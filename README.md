# Portfolio site search, routing and contact-form check, in Dafny

The portfolio site's page script (`jquery.js`) has three small pieces of logic of
its own. Everything else it does is hand work to jQuery, jQuery UI and Chart.js.
This project models those three pieces and proves what they do.

- **Search matcher** (`search.dfy`). The autocomplete widget runs the `source`
  callback over a fixed index of 18 skills and projects (`SearchData`;
  "Node.js" is listed twice). The callback lower-cases the query and keeps
  every index entry whose lower-cased form contains it (`indexOf(term) !== -1`).
  `Match` is that callback. `Suggest` adds the widget's `minLength: 2` threshold:
  a query shorter than two characters is handed no suggestions. `Suggest` is
  what the callback hands the widget, not what the widget draws (see
  "## Left out").
- **Result router** (`router.dfy`). When a suggestion is selected, a chain of
  case-sensitive `includes` tests sends it to `portfolio.html` if it contains
  one of "Website", "App", "Platform", "Nutrify", "RotAlert", "FlameExchange" or
  "Dashboard". Any other selection goes to `skills.html`. `Route` returns the
  destination as a value; it does not navigate.
- **Contact-form presence check** (`contact_form.dfy`). On submit, a loop visits
  every required field. A field whose trimmed value is empty clears the
  `isValid` flag and gets a red border. Every other field gets the gray border.
  `CheckRequired` is that loop. It reads the field values from one array, writes
  each field's border into a second array, and returns `isValid`.

`text.dfy` holds the string operations the three pieces use: ASCII
`toLowerCase` (`Lower`), `indexOf` (`IndexOf`), `includes` (`Includes`) and
`trim` (`Trim`). `IndexOf` is checked against an independent definition of
containment (`Contains`: the needle occurs at some position). Membership in
the matcher's result and the router's choice are stated in terms of
`Contains`, not in terms of the code that computes them. `search_examples.dfy` and `router_examples.dfy`
work out what the page's own index yields.

The router treats the index entry "Project" as a skill, because it contains
none of the indicators. This is the code's behaviour (a heuristic keyword test),
and the model keeps it. `RouteSearchData` lists the destination of every index
entry.

## Model

| member | source | states |
|---|---|---|
| Text.Lower | jquery.js:29-31 | `toLowerCase` keeps the length and lower-cases each character in place (ASCII letters only) |
| Text.LowerIdempotent | jquery.js:29-31 | lower-casing an already lower-cased string changes nothing |
| Text.LowerHasNoUpper | jquery.js:29-31 | no upper-case letter is left after lower-casing |
| Text.LowerOfLowerCase | jquery.js:29 | a query with no upper-case letter is its own lower-cased form |
| Text.IndexOf | jquery.js:31 | `indexOf` is -1 exactly when the needle occurs nowhere; otherwise the needle occurs at the result and at no earlier position |
| Text.Includes | jquery.js:42-46 | `includes` holds exactly when the needle occurs in the string |
| Text.IndexOfEmpty | jquery.js:31 | the empty query is found at position 0 of every entry |
| Text.TrimStartDropsLeadingSpace | jquery.js:166 | the start of `trim` drops exactly the leading whitespace: a suffix remains that is empty or starts with a non-space |
| Text.TrimEndDropsTrailingSpace | jquery.js:166 | the end of `trim` drops exactly the trailing whitespace: a prefix remains that is empty or ends with a non-space |
| Text.TrimIsCore | jquery.js:166 | `trim` (`Trim`, the composition of `TrimStart` and `TrimEnd`): the trimmed value is the slice of the field between two whitespace runs and neither starts nor ends with whitespace |
| Text.TrimEmptyIffAllSpace | jquery.js:166 | a value trims to "" exactly when it is all whitespace |
| Search.Match | jquery.js:27-35 | sound: every suggestion is an index entry whose lower-cased form contains the lower-cased query; complete: every such entry of the index (`SearchData`, jquery.js:13-21) is suggested |
| Search.Suggest | jquery.js:36 | what the callback hands the widget: below two characters (`MinLength`, the `minLength: 2` option) nothing; from two on, exactly the sound and complete set of matching entries |
| Search.SuggestIsMatch | jquery.js:36 | at or above the threshold the widget is handed exactly the filter's output |
| Search.MatchAppend | jquery.js:30-32 | filtering distributes over concatenation of the index, so the suggestions keep index order |
| Search.MatchIsSubsequence | jquery.js:30-32 | the suggestions are a subsequence of the index |
| Search.MatchMultiplicity | jquery.js:13-32 | a matching entry is suggested as often as it is listed (duplicates kept); a non-matching one never |
| Search.MatchSingleEntry | jquery.js:30-32 | a single entry is kept exactly when it matches |
| Search.MatchNone | jquery.js:30-32 | when no entry matches there are no suggestions |
| Search.MatchOnlyAt | jquery.js:30-32 | when exactly one entry matches, it alone is suggested |
| Search.MatchOnlyAtTwo | jquery.js:30-32 | when exactly two entries match, both are suggested in index order |
| Search.MatchCaseInsensitive | jquery.js:29-31 | queries that lower-case alike give identical suggestions |
| Search.MatchIgnoresQueryCase | jquery.js:29 | a query gives the same suggestions as its lower-cased form |
| Search.MatchEmptyQuery | jquery.js:29-32 | the callback alone would suggest the whole index for the empty query |
| SearchExamples.MatchScript | jquery.js:13-32 | "script" suggests exactly ["JavaScript"] |
| SearchExamples.MatchScriptUpperCase | jquery.js:13-32 | "SCRIPT" suggests exactly ["JavaScript"] too |
| SearchExamples.MatchNode | jquery.js:13-32 | "node" suggests ["Node.js", "Node.js"]: both listings are kept |
| SearchExamples.MatchNothing | jquery.js:13-32 | "xyz123" suggests nothing |
| SearchExamples.SuggestOneCharacter | jquery.js:36 | a one-character query is handed no suggestions |
| SearchExamples.SuggestScript | jquery.js:27-36 | the widget is handed ["JavaScript"] for "script" |
| Router.IncludesChainIsProject | jquery.js:42-46 | the chain of seven `includes` tests holds exactly when the selection contains one of the seven indicators |
| Router.Route | jquery.js:37-53 | every selection is routed; to the project page exactly when it contains, case-sensitively, one of the seven indicators (`ProjectIndicators`, in the order of jquery.js:42-46), otherwise to the skills page |
| RouterExamples.RouteSearchData | jquery.js:13-53 | of the index entries, "Nutrify", "FlameExchange", "RotAlert", "Portfolio Website" and "App" go to the project page; the twelve skills and "Project" go to the skills page |
| RouterExamples.RouteExamples | jquery.js:42-52 | "Portfolio Website", "App", "Nutrify", "RotAlert" and "FlameExchange" go to the project page; "Python", "React.js" and "Project" to the skills page |
| RouterExamples.RouteIsCaseSensitive | jquery.js:42-46 | "portfolio website" goes to the skills page: indicators are matched case-sensitively |
| ContactForm.Borders | jquery.js:164-174 | one border per field, red exactly when the field's trimmed value is empty |
| ContactForm.AllFilledIffNoRed | jquery.js:164-176 | the form is accepted (hidden, thanked and reset, with no request made) exactly when no field was marked red |
| ContactForm.CheckRequired | jquery.js:164-174 | visits every field without stopping early; returns true exactly when every trimmed value is non-empty; leaves each field's border red when its trimmed value is empty and gray otherwise |

## Left out

- Search.Suggest: it is what the callback hands the widget, not what is drawn. `_renderItem` (jquery.js:56-57) builds a `RegExp` from the unescaped query (trimmed, each whitespace run turned into `|`), so a query such as "++", "c++" or "C++" (for which `Suggest` gives ["C++"]) throws while the list is drawn, and nothing is shown. Its threshold also counts characters (Unicode scalar values), where jQuery UI compares `value.length` in UTF-16 code units, so one astral-plane character passes the page's threshold but not the model's. No entry of the index is affected by the second point.
- Text.Lower: lower-cases ASCII `A`-`Z` only. JavaScript's `toLowerCase` also lower-cases other Unicode letters, and can change a string's length.
- Text.TrimIsCore: `Trim` strips space, tab, line feed, vertical tab, form feed and carriage return only. JavaScript's `trim` also strips other Unicode white space, such as U+00A0 and U+FEFF. The same holds for every lemma about `Trim` and for ContactForm.CheckRequired.
- The highlight renderer `_renderItem` (jquery.js:54-63) is not modelled. It builds a regular expression from the unescaped query: trimmed, with each run of whitespace turned into `|`. A query such as "C++" makes `new RegExp` throw while the list is drawn. That happens outside the `try` block, which only covers set-up. Modelling it would mean modelling a regular-expression engine.
- Navigation (`window.location.href`, jquery.js:47, 51) is not modelled. `Route` returns the destination, and `Destination.Url` gives the page it names.
- The jQuery UI presence check (jquery.js:3-6) is not modelled. When jQuery UI is missing it logs and returns from the ready handler, so none of the set-up runs: no autocomplete, no router, and no contact-form check (the form then submits unchecked). The model assumes jQuery UI is present.
- Console logging and the missing search-box branch (jquery.js:24, 69-71) are not modelled. That branch only logs.
- The widget lifecycle is not modelled: event dispatch, the `response` callback, and the enforcement of `minLength` inside jQuery UI. `Suggest` states the threshold's effect.
- CheckRequired: the field values and borders are two arrays in document order. The jQuery selection of `input[required], textarea[required]` that produces them is not modelled. Neither is the 300 ms animation of a red border's width to 2px.
- What happens after a successful check is not modelled (jquery.js:176-199): the slide-up, the success message, the form reset and the 5-second timer that shows the form again. These are DOM effects and timing with no logic of their own.
- The portfolio hover fades, the project-details slide toggles, smooth scrolling with its 70-pixel offset, and the injected style sheet (jquery.js:73-225) are not modelled. They are jQuery animation calls with no logic of their own.
- `final.js` is not modelled. It is static Chart.js configuration. Its only arithmetic is a floating-point tooltip percentage.
