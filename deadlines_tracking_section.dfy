/** Step 5 of the wizard: the functional-team and executive-area cards, and the
    notification summary built from the chosen ones. The two catalogues are not
    part of the shown data, so they are parameters here. */
module DeadlinesTrackingSection {
  import opened Wrappers
  import opened SeqFacts
  import opened Strings

  datatype Team = Team(id: string, name: string, members: string)
  datatype Area = Area(id: string, name: string, lead: string)

  function TeamId(t: Team): string { t.id }
  function AreaId(a: Area): string { a.id }

  // ---------------------------------------------------------------------------
  // The chosen entries
  // ---------------------------------------------------------------------------

  /** `catalogue.filter((x) => chosen.includes(x.id))`. */
  function Chosen<T>(catalogue: seq<T>, idOf: T -> string, chosen: seq<string>): (r: seq<T>)
    ensures |r| <= |catalogue|
  {
    if catalogue == [] then []
    else (if idOf(catalogue[0]) in chosen then [catalogue[0]] else []) + Chosen(catalogue[1..], idOf, chosen)
  }

  /** `xs` keeps some of the elements of `ys`, in the order `ys` has them. */
  ghost predicate Subsequence<T>(xs: seq<T>, ys: seq<T>)
    decreases |ys|
  {
    || xs == []
    || (ys != [] && ((xs[0] == ys[0] && Subsequence(xs[1..], ys[1..])) || Subsequence(xs, ys[1..])))
  }

  /** An entry is shown as chosen iff it is in the catalogue and its id is in the
      chosen list. */
  lemma {:induction false} ChosenMembership<T>(catalogue: seq<T>, idOf: T -> string, chosen: seq<string>, x: T)
    ensures x in Chosen(catalogue, idOf, chosen) <==> x in catalogue && idOf(x) in chosen
  {
    if catalogue != [] {
      ChosenMembership(catalogue[1..], idOf, chosen, x);
      assert catalogue == [catalogue[0]] + catalogue[1..];
    }
  }

  /** The chosen entries keep the catalogue's order, whatever the order of the
      chosen ids. */
  lemma {:induction false} ChosenInCatalogueOrder<T>(catalogue: seq<T>, idOf: T -> string, chosen: seq<string>)
    ensures Subsequence(Chosen(catalogue, idOf, chosen), catalogue)
  {
    if catalogue != [] {
      var rest := Chosen(catalogue[1..], idOf, chosen);
      ChosenInCatalogueOrder(catalogue[1..], idOf, chosen);
      var r := Chosen(catalogue, idOf, chosen);
      if idOf(catalogue[0]) in chosen {
        assert r[0] == catalogue[0] && r[1..] == rest;
      } else {
        assert r == rest;
      }
    }
  }

  /** Filtering a concatenated catalogue filters each part. */
  lemma {:induction false} ChosenConcat<T>(a: seq<T>, b: seq<T>, idOf: T -> string, chosen: seq<string>)
    ensures Chosen(a + b, idOf, chosen) == Chosen(a, idOf, chosen) + Chosen(b, idOf, chosen)
  {
    if a == [] {
      assert a + b == b;
    } else {
      var ab := a + b;
      assert ab[0] == a[0] && ab[1..] == a[1..] + b;
      ChosenConcat(a[1..], b, idOf, chosen);
      var head := if idOf(a[0]) in chosen then [a[0]] else [];
      assert Chosen(ab, idOf, chosen) == head + (Chosen(a[1..], idOf, chosen) + Chosen(b, idOf, chosen));
      assert Chosen(a, idOf, chosen) == head + Chosen(a[1..], idOf, chosen);
      AppendAssoc(head, Chosen(a[1..], idOf, chosen), Chosen(b, idOf, chosen));
    }
  }

  /** Ids that name no catalogue entry change nothing. */
  lemma {:induction false} UnknownIdsIgnored<T>(catalogue: seq<T>, idOf: T -> string, chosen: seq<string>, extra: string)
    requires forall i :: 0 <= i < |catalogue| ==> idOf(catalogue[i]) != extra
    ensures Chosen(catalogue, idOf, chosen + [extra]) == Chosen(catalogue, idOf, chosen)
  {
    if catalogue != [] {
      UnknownIdsIgnored(catalogue[1..], idOf, chosen, extra);
    }
  }

  /** Nothing chosen shows nothing; every id chosen shows the whole catalogue. */
  lemma {:induction false} ChosenExtremes<T>(catalogue: seq<T>, idOf: T -> string, chosen: seq<string>)
    ensures Chosen(catalogue, idOf, []) == []
    ensures (forall i :: 0 <= i < |catalogue| ==> idOf(catalogue[i]) in chosen) ==>
      Chosen(catalogue, idOf, chosen) == catalogue
  {
    if catalogue != [] {
      ChosenExtremes(catalogue[1..], idOf, chosen);
      if forall i :: 0 <= i < |catalogue| ==> idOf(catalogue[i]) in chosen {
        assert forall i :: 0 <= i < |catalogue[1..]| ==> catalogue[1..][i] == catalogue[i + 1];
        assert [catalogue[0]] + catalogue[1..] == catalogue;
      }
    }
  }

  // ---------------------------------------------------------------------------
  // The cards
  // ---------------------------------------------------------------------------

  /** The `checked` flag of each card, in catalogue order. */
  function CheckedFlags<T>(catalogue: seq<T>, idOf: T -> string, chosen: seq<string>): (r: seq<bool>)
    ensures |r| == |catalogue|
    ensures forall i :: 0 <= i < |r| ==> (r[i] <==> idOf(catalogue[i]) in chosen)
  {
    seq(|catalogue|, i requires 0 <= i < |catalogue| => idOf(catalogue[i]) in chosen)
  }

  function CountTrue(flags: seq<bool>): nat {
    if flags == [] then 0 else (if flags[0] then 1 else 0) + CountTrue(flags[1..])
  }

  /** As many cards are checked as the summary lists. */
  lemma {:induction false} CheckedCardsMatchSummary<T>(catalogue: seq<T>, idOf: T -> string, chosen: seq<string>)
    ensures CountTrue(CheckedFlags(catalogue, idOf, chosen)) == |Chosen(catalogue, idOf, chosen)|
  {
    if catalogue != [] {
      CheckedCardsMatchSummary(catalogue[1..], idOf, chosen);
      assert CheckedFlags(catalogue, idOf, chosen)[1..] == CheckedFlags(catalogue[1..], idOf, chosen);
    }
  }

  /** What a card's `onChange` asks for: toggling its own id in its own list. */
  datatype CardToggle = ToggleTeam(teamId: string) | ToggleArea(areaId: string)

  function TeamCardChange(t: Team): (e: CardToggle)
    ensures e.ToggleTeam? && e.teamId == t.id
  {
    ToggleTeam(t.id)
  }

  function AreaCardChange(a: Area): (e: CardToggle)
    ensures e.ToggleArea? && e.areaId == a.id
  {
    ToggleArea(a.id)
  }

  // ---------------------------------------------------------------------------
  // The notification summary
  // ---------------------------------------------------------------------------

  /** `team.members.split(',')[0].trim()`. */
  function TeamLead(members: string): (r: string)
    ensures ',' !in r
    ensures r != [] ==> r[0] !in JsWhitespace && r[|r| - 1] !in JsWhitespace
  {
    Trim(FirstPiece(members, ','), JsWhitespace)
  }

  /** Where the lead starts inside the member list: after the leading whitespace
      of the first entry. */
  function LeadStart(members: string): nat {
    TrimFrom(FirstPiece(members, ','), JsWhitespace)
  }

  /** The lead is a piece of the member list before its first comma... */
  lemma TeamLeadIsFirstName(members: string)
    ensures LeadStart(members) + |TeamLead(members)| <= |FirstPiece(members, ',')|
    ensures TeamLead(members) == members[LeadStart(members)..LeadStart(members) + |TeamLead(members)|]
  {
    var first := FirstPiece(members, ',');
    assert TeamLead(members) == Trim(first, JsWhitespace) && LeadStart(members) == TrimFrom(first, JsWhitespace);
    TrimOfPrefix(members, first, JsWhitespace);
  }

  /** ...with only whitespace cut off around it. */
  lemma TeamLeadTrimsWhitespace(members: string)
    ensures forall i :: 0 <= i < LeadStart(members) ==> members[i] in JsWhitespace
    ensures forall i :: LeadStart(members) + |TeamLead(members)| <= i < |FirstPiece(members, ',')| ==>
      members[i] in JsWhitespace
  {
    var first := FirstPiece(members, ',');
    assert TeamLead(members) == Trim(first, JsWhitespace) && LeadStart(members) == TrimFrom(first, JsWhitespace);
    TrimOfPrefixCutsWhitespace(members, first, JsWhitespace);
  }

  /** A member list whose first entry is already trimmed names that entry. */
  lemma TeamLeadOfList(name: string, rest: string)
    requires ',' !in name
    requires name != [] ==> name[0] !in JsWhitespace && name[|name| - 1] !in JsWhitespace
    ensures TeamLead(name + "," + rest) == name
    ensures TeamLead(name) == name
  {
    FirstPieceOf(name, rest);
    TrimOfTrimmed(name, JsWhitespace);
  }

  lemma {:induction false} FirstPieceOf(name: string, rest: string)
    requires ',' !in name
    ensures FirstPiece(name + "," + rest, ',') == name
    ensures FirstPiece(name, ',') == name
  {
    if name != [] {
      assert (name + "," + rest)[1..] == name[1..] + "," + rest;
      FirstPieceOf(name[1..], rest);
    }
  }

  function TeamTag(t: Team): string {
    t.name + " (Lead: " + TeamLead(t.members) + ")"
  }

  function AreaTag(a: Area): string {
    a.name + " (Lead: " + a.lead + ")"
  }

  const TeamsPrefix: string := "Functional Teams ("
  const AreasPrefix: string := "Executive Areas ("

  /** One summary group: its header and its tags. */
  datatype Group = Group(header: string, tags: seq<string>)

  /** The summary box: the empty-state text, or the non-empty groups. */
  datatype Summary = NothingSelected | Groups(teams: Option<Group>, areas: Option<Group>)

  const EmptySummaryText: string := "No teams or areas selected yet."

  function TeamGroup(selected: seq<Team>): Group {
    Group(TeamsPrefix + NatToString(|selected|) + "):", seq(|selected|, i requires 0 <= i < |selected| => TeamTag(selected[i])))
  }

  function AreaGroup(selected: seq<Area>): Group {
    Group(AreasPrefix + NatToString(|selected|) + "):", seq(|selected|, i requires 0 <= i < |selected| => AreaTag(selected[i])))
  }

  /** The summary box for the chosen team and area ids. */
  function Summarize(teams: seq<Team>, areas: seq<Area>, functionalTeams: seq<string>, executiveAreas: seq<string>): Summary {
    var selectedTeams := Chosen(teams, TeamId, functionalTeams);
    var selectedAreas := Chosen(areas, AreaId, executiveAreas);
    // `allSelected.length` of `[...selectedTeams, ...selectedAreas]`
    var allSelectedCount := |selectedTeams| + |selectedAreas|;
    if allSelectedCount == 0 then NothingSelected
    else Groups(
      if |selectedTeams| > 0 then Some(TeamGroup(selectedTeams)) else None,
      if |selectedAreas| > 0 then Some(AreaGroup(selectedAreas)) else None)
  }

  /** The empty-state text shows iff no catalogue team and no catalogue area is
      chosen; otherwise at least one group shows, and each group shows iff its
      own selection is non-empty. */
  lemma SummaryShape(teams: seq<Team>, areas: seq<Area>, functionalTeams: seq<string>, executiveAreas: seq<string>)
    ensures var s := Summarize(teams, areas, functionalTeams, executiveAreas);
      && (s.NothingSelected? <==>
            (forall t :: t in teams ==> t.id !in functionalTeams) &&
            (forall a :: a in areas ==> a.id !in executiveAreas))
      && (s.Groups? ==> s.teams.Some? || s.areas.Some?)
      && (s.Groups? ==> (s.teams.Some? <==> exists t :: t in teams && t.id in functionalTeams))
      && (s.Groups? ==> (s.areas.Some? <==> exists a :: a in areas && a.id in executiveAreas))
  {
    var selectedTeams := Chosen(teams, TeamId, functionalTeams);
    var selectedAreas := Chosen(areas, AreaId, executiveAreas);
    forall t | true
      ensures t in selectedTeams <==> t in teams && t.id in functionalTeams
    {
      ChosenMembership(teams, TeamId, functionalTeams, t);
    }
    forall a | true
      ensures a in selectedAreas <==> a in areas && a.id in executiveAreas
    {
      ChosenMembership(areas, AreaId, executiveAreas, a);
    }
    if selectedTeams != [] {
      assert selectedTeams[0] in selectedTeams;
    }
    if selectedAreas != [] {
      assert selectedAreas[0] in selectedAreas;
    }
  }

  /** A group's header reads back as the number of its tags, and its tags are the
      selected entries' names in catalogue order, each with its lead. */
  lemma TeamGroupReadsBack(selected: seq<Team>)
    ensures var g := TeamGroup(selected);
      && g.header[..|TeamsPrefix|] == TeamsPrefix
      && LeadingNumber(g.header[|TeamsPrefix|..]) == |g.tags| == |selected|
      && forall i :: 0 <= i < |selected| ==>
           g.tags[i] == selected[i].name + " (Lead: " + TeamLead(selected[i].members) + ")"
  {
    var g := TeamGroup(selected);
    assert g.header[|TeamsPrefix|..] == NatToString(|selected|) + "):";
    LeadingNumberOfLabel(|selected|, "):");
  }

  lemma AreaGroupReadsBack(selected: seq<Area>)
    ensures var g := AreaGroup(selected);
      && g.header[..|AreasPrefix|] == AreasPrefix
      && LeadingNumber(g.header[|AreasPrefix|..]) == |g.tags| == |selected|
      && forall i :: 0 <= i < |selected| ==>
           g.tags[i] == selected[i].name + " (Lead: " + selected[i].lead + ")"
  {
    var g := AreaGroup(selected);
    assert g.header[|AreasPrefix|..] == NatToString(|selected|) + "):";
    LeadingNumberOfLabel(|selected|, "):");
  }
}
