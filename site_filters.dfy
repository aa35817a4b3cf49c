/**
 * The site filters of the GUI views (cmk/gui/visuals/_site_filters.py): the
 * `|`-separated site list of the "Multiple sites" filter, and the dropdown
 * choices offered by the site autocompleter.
 */
module SiteFilters {
  import opened Wrappers
  import opened Text
  import opened Sorting

  /** The HTTP variables of a filter. */
  type FilterVars = map<string, string>

  /** `value.get(name, "")`. */
  function GetOrEmpty(vars: FilterVars, name: string): string
  {
    if name in vars then vars[name] else ""
  }

  /**
   * The sites selected in the variable `name`: the stripped value split on
   * `|`, empty pieces dropped. A missing variable selects no site.
   */
  function GetRequestSites(vars: FilterVars, name: string): (sites: seq<string>)
    ensures name !in vars ==> sites == []
    ensures forall i :: 0 <= i < |sites| ==> sites[i] != "" && '|' !in sites[i]
    ensures forall x :: x in sites <==> x != "" && x in Split(Strip(GetOrEmpty(vars, name)), '|')
  {
    if name !in vars then
      assert Strip("") == "" by { StripUnchanged(""); }
      []
    else
      var pieces := Split(Strip(GetOrEmpty(vars, name)), '|');
      var sites := NonEmpty(pieces);
      assert forall i :: 0 <= i < |sites| ==> sites[i] in pieces;
      sites
  }

  /**
   * For a value without white space at its ends, the sites are the `|`-pieces
   * of the value with the empty ones dropped, in order and with repetitions
   * (`NonEmptyAppend`): `a||b|a` selects `a`, `b`, `a`.
   */
  lemma RequestSitesDropEmpty(pieces: seq<string>, name: string)
    requires |pieces| >= 1 && forall i :: 0 <= i < |pieces| ==> '|' !in pieces[i]
    requires var j := Join(pieces, '|'); j == [] || (!IsSpace(j[0]) && !IsSpace(j[|j| - 1]))
    ensures GetRequestSites(map[name := Join(pieces, '|')], name) == NonEmpty(pieces)
  {
    var joined := Join(pieces, '|');
    assert GetOrEmpty(map[name := joined], name) == joined;
    StripUnchanged(joined);
    SplitJoin(pieces, '|');
  }

  lemma {:induction false} NonEmptyKeeps(pieces: seq<string>)
    requires forall i :: 0 <= i < |pieces| ==> pieces[i] != ""
    ensures NonEmpty(pieces) == pieces
  {
    if pieces != [] {
      NonEmptyKeeps(pieces[1..]);
    }
  }

  /**
   * Writing a site list with `|` and reading it back gives the list again,
   * for site names that are non-empty, contain no `|`, and do not put white
   * space at either end of the joined value.
   */
  lemma RequestSitesRoundTrip(sites: seq<string>, name: string)
    requires forall i :: 0 <= i < |sites| ==> sites[i] != "" && '|' !in sites[i]
    requires sites != [] ==> !IsSpace(sites[0][0]) && !IsSpace(sites[|sites| - 1][|sites[|sites| - 1]| - 1])
    ensures GetRequestSites(map[name := Join(sites, '|')], name) == sites
  {
    var joined := Join(sites, '|');
    if sites == [] {
      assert GetOrEmpty(map[name := joined], name) == "";
      StripUnchanged("");
      assert Split("", '|') == [""];
      assert NonEmpty([""]) == [] + NonEmpty([]);
    } else {
      JoinEnds(sites, '|');
      StripUnchanged(joined);
      SplitJoin(sites, '|');
      NonEmptyKeeps(sites);
    }
  }

  /** The joined text starts with the first piece and ends with the last. */
  lemma {:induction false} JoinEnds(parts: seq<string>, sep: char)
    requires |parts| >= 1 && forall i :: 0 <= i < |parts| ==> parts[i] != ""
    ensures var j := Join(parts, sep);
      && |j| >= 1
      && j[0] == parts[0][0]
      && j[|j| - 1] == parts[|parts| - 1][|parts[|parts| - 1]| - 1]
  {
    if |parts| > 1 {
      var rest := parts[1..];
      JoinEnds(rest, sep);
      assert Join(parts, sep) == parts[0] + [sep] + Join(rest, sep);
    } else {
      assert Join(parts, sep) == parts[0];
    }
  }

  /** A dropdown choice: site id (possibly None) and title. */
  type Choice = (Option<string>, string)

  /** The value of `choice[0] or ""`. */
  function IdText(id: Option<string>): string
  {
    if id.Some? then id.value else ""
  }

  /** Case-insensitive substring match of `ident` against the id or the title. */
  function MatchesIdOrTitle(ident: string, choice: Choice): (b: bool)
    ensures b <==> ((exists k :: OccursAt(Lower(IdText(choice.0)), Lower(ident), k))
                 || (exists k :: OccursAt(Lower(choice.1), Lower(ident), k)))
  {
    Contains(Lower(IdText(choice.0)), Lower(ident)) || Contains(Lower(choice.1), Lower(ident))
  }

  /** An empty input matches every choice. */
  lemma EmptyIdentMatchesAll(choice: Choice)
    ensures MatchesIdOrTitle("", choice)
  {
    assert OccursAt(Lower(choice.1), Lower(""), 0);
  }

  /** Typing the title of a choice, in any letter case, matches it. */
  lemma TitleMatchesItself(title: string, choice: Choice)
    requires Lower(title) == Lower(choice.1)
    ensures MatchesIdOrTitle(title, choice)
  {
    assert Lower(choice.1)[0..|Lower(title)|] == Lower(title);
    assert OccursAt(Lower(choice.1), Lower(title), 0);
  }

  /** Matching ignores the letter case of the input. */
  lemma MatchIgnoresCase(ident: string, choice: Choice)
    ensures MatchesIdOrTitle(Upper(ident), choice) == MatchesIdOrTitle(ident, choice)
  {
    assert Lower(Upper(ident)) == Lower(ident);
  }

  /** `[v for v in options if _matches_id_or_title(value, v)]`, in option order. */
  function MatchingChoices(value: string, options: seq<Choice>): (r: seq<Choice>)
    ensures |r| <= |options|
    ensures forall c :: c in r <==> c in options && MatchesIdOrTitle(value, c)
  {
    if options == [] then []
    else (if MatchesIdOrTitle(value, options[0]) then [options[0]] else []) + MatchingChoices(value, options[1..])
  }

  /**
   * The filter works option by option: on a concatenation it is the
   * concatenation of the filtered parts, so the matching options keep their
   * order and their repetitions.
   */
  lemma {:induction false} MatchingChoicesAppend(value: string, a: seq<Choice>, b: seq<Choice>)
    ensures MatchingChoices(value, a + b) == MatchingChoices(value, a) + MatchingChoices(value, b)
  {
    if a == [] {
      assert a + b == b;
    } else {
      var head := if MatchesIdOrTitle(value, a[0]) then [a[0]] else [];
      assert (a + b)[0] == a[0];
      assert (a + b)[1..] == a[1..] + b;
      MatchingChoicesAppend(value, a[1..], b);
      calc {
        MatchingChoices(value, a + b);
        head + MatchingChoices(value, a[1..] + b);
        head + (MatchingChoices(value, a[1..]) + MatchingChoices(value, b));
        { AppendAssoc(head, MatchingChoices(value, a[1..]), MatchingChoices(value, b)); }
        (head + MatchingChoices(value, a[1..])) + MatchingChoices(value, b);
      }
    }
  }

  /** A single option is kept iff it matches. */
  lemma MatchingChoicesSingle(value: string, c: Choice)
    ensures MatchingChoices(value, [c]) == if MatchesIdOrTitle(value, c) then [c] else []
  {
    assert [c][1..] == [];
  }


  /** The sort key of the non-CME editions: the lowercased title. */
  function TitleKey(c: Choice): string
  {
    Lower(c.1)
  }

  /** The placeholder offered when the filter is optional. */
  const AllSites: Choice := (Some(""), "All Sites")

  /** `choices.sort(key=lambda a: a[1].lower())`, as an insertion loop. */
  method SortByTitle(choices: seq<Choice>) returns (sorted: seq<Choice>)
    ensures sorted == SortBy(choices, TitleKey)
    ensures SortedBy(sorted, TitleKey) && multiset(sorted) == multiset(choices)
  {
    sorted := [];
    var i := 0;
    while i < |choices|
      invariant 0 <= i <= |choices|
      invariant sorted == SortBy(choices[..i], TitleKey)
    {
      assert choices[..i + 1][..i] == choices[..i];
      sorted := InsertBy(choices[i], sorted, TitleKey);
      i := i + 1;
    }
    assert choices[..i] == choices;
    SortBySorted(choices, TitleKey);
  }

  /**
   * The dropdown choices for input `value`. `strict` is the truth value of
   * `params.get("strict")`, `isCme` whether the edition is CME, whose site
   * options already come in display order.
   */
  method SitesAutocompleter(value: string, strict: bool, isCme: bool, options: seq<Choice>)
    returns (choices: seq<Choice>)
    ensures var offset := if strict then 0 else 1;
      && |choices| == |MatchingChoices(value, options)| + offset
      && (!strict ==> choices[0] == AllSites)
      && (isCme ==> choices[offset..] == MatchingChoices(value, options))
      && (!isCme ==> choices[offset..] == SortBy(MatchingChoices(value, options), TitleKey))
      && (!isCme ==> SortedBy(choices[offset..], TitleKey))
      && multiset(choices[offset..]) == multiset(MatchingChoices(value, options))
      && (forall c :: c in choices[offset..] ==> MatchesIdOrTitle(value, c))
  {
    var matching := MatchingChoices(value, options);
    var body := matching;
    if !isCme {
      body := SortByTitle(matching);
    }
    assert forall c :: c in body ==> c in multiset(matching);
    if strict {
      choices := body;
    } else {
      choices := [AllSites] + body;
      assert choices[1..] == body;
    }
  }

  /** The HTTP variables a table row links to: exactly its site; a row without one raises KeyError. */
  function RequestVarsFromRow(row: map<string, string>): (vars: Option<FilterVars>)
    ensures vars.None? <==> "site" !in row
    ensures vars.Some? ==> vars.value.Keys == {"site"} && vars.value["site"] == row["site"]
  {
    if "site" in row then Some(map["site" := row["site"]]) else None
  }
}
