/** Listing the teams of an organization page by page. */
module Paging {
  import opened Common
  import opened Text
  import opened Hierarchy

  datatype Team = Team(slug: string, name: string, description: Option<string>, parent: Option<string>)

  // ------------------------------------------------------------------ page tokens

  function Digit(d: nat): (c: char)
    requires d < 10
    ensures '0' <= c <= '9'
  {
    ('0' as int + d) as char
  }

  /** Decimal form, as `u32::to_string`. */
  function Print(n: nat): string {
    if n < 10 then [Digit(n)] else Print(n / 10) + [Digit(n % 10)]
  }

  function DigitsValue(s: string): Option<nat> {
    if s == [] then Some(0)
    else
      var c, rest := s[|s| - 1], DigitsValue(s[..|s| - 1]);
      if rest.None? || !('0' <= c <= '9') then None
      else Some(10 * rest.value + (c as int - '0' as int))
  }

  /** `str::parse::<u32>`: an optional plus sign, then at least one digit, in range. */
  function ParsePage(s: string): Option<nat> {
    var digits := if s != [] && s[0] == '+' then s[1..] else s;
    var v := DigitsValue(digits);
    if digits == [] || v.None? || v.value >= U32_LIMIT then None else v
  }

  lemma {:induction false} DigitsValueOfPrint(n: nat)
    ensures DigitsValue(Print(n)) == Some(n)
    ensures Print(n) != [] && Print(n)[0] != '+'
  {
    if n < 10 {
      assert DigitsValue([]) == Some(0);
    } else {
      DigitsValueOfPrint(n / 10);
      assert Print(n)[..|Print(n)| - 1] == Print(n / 10);
      assert Print(n)[0] == Print(n / 10)[0];
    }
  }

  lemma {:induction false} TokenRoundTrip(n: nat)
    requires n < U32_LIMIT
    ensures ParsePage(Print(n)) == Some(n)
  {
    DigitsValueOfPrint(n);
  }

  // ------------------------------------------------------------------- list_groups

  /** A nested team's description is replaced by a reference to its parent. */
  function ToGroup(t: Team): Group {
    Group(t.slug, t.name, if t.parent.Some? then Some(PARENT_PREFIX + t.parent.value) else t.description)
  }

  /** The groups of the teams that pass the filter, in order. */
  function Wanted(teams: seq<Team>, keep: string -> bool): seq<Group> {
    if teams == [] then []
    else
      var front, last := Wanted(teams[..|teams| - 1], keep), teams[|teams| - 1];
      if keep(last.name) then front + [ToGroup(last)] else front
  }

  lemma {:induction false} WantedAppends(a: seq<Team>, b: seq<Team>, keep: string -> bool)
    ensures Wanted(a + b, keep) == Wanted(a, keep) + Wanted(b, keep)
  {
    if b == [] {
      assert a + b == a;
    } else {
      WantedAppends(a, b[..|b| - 1], keep);
      assert (a + b)[..|a + b| - 1] == a + b[..|b| - 1];
    }
  }

  /** The team filter looks at the name. */
  function ByName(keep: string -> bool): Team -> bool {
    (t: Team) => keep(t.name)
  }

  lemma {:induction false} WantedSnoc(front: seq<Team>, last: Team, keep: string -> bool)
    requires Selects(front, ByName(keep), ToGroup, Wanted(front, keep))
    ensures Selects(front + [last], ByName(keep), ToGroup, Wanted(front + [last], keep))
  {
    SelectsSnoc(front, last, ByName(keep), ToGroup, Wanted(front, keep));
    assert (front + [last])[..|front|] == front;
  }

  /** One group per team that passes the filter, in the order of the teams, and nothing else. */
  lemma {:induction false} WantedSelects(teams: seq<Team>, keep: string -> bool)
    ensures Selects(teams, ByName(keep), ToGroup, Wanted(teams, keep))
  {
    if teams == [] {
      SelectsNone(ByName(keep), ToGroup);
    } else {
      var front, last := teams[..|teams| - 1], teams[|teams| - 1];
      WantedSelects(front, keep);
      WantedSnoc(front, last, keep);
      assert front + [last] == teams;
    }
  }

  lemma {:induction false} WantedMembers(teams: seq<Team>, keep: string -> bool, g: Group)
    ensures g in Wanted(teams, keep) <==> exists t :: t in teams && keep(t.name) && g == ToGroup(t)
  {
    WantedSelects(teams, keep);
    SelectsMembers(teams, ByName(keep), ToGroup, Wanted(teams, keep), g);
  }

  function Min(a: nat, b: nat): nat {
    if a <= b then a else b
  }

  /** What the API answers for a page number, 100 teams per page; page zero is served as the first. */
  function ServedPage(teams: seq<Team>, page: nat): seq<Team> {
    var p := if page == 0 then 1 else page;
    teams[Min((p - 1) * 100, |teams|)..Min(p * 100, |teams|)]
  }

  /** Page `k` takes up where the pages before it ended; a short page ends the list. */
  lemma {:induction false} PageContinues(teams: seq<Team>, k: nat)
    requires k >= 1 && (k - 1) * 100 <= |teams|
    ensures var served := ServedPage(teams, k);
            if |served| >= 100 then k * 100 <= |teams| && teams[..(k - 1) * 100] + served == teams[..k * 100]
            else teams[..(k - 1) * 100] + served == teams && |teams| / 100 == k - 1
  {
  }

  datatype GroupPage = GroupPage(groups: seq<Group>, nextToken: Option<string>)

  function PageOf(token: Option<string>): nat {
    if token.Some? && ParsePage(token.value).Some? then ParsePage(token.value).value else 1
  }

  lemma {:induction false} NonDigitHasNoValue(s: string, c: char)
    requires c in s && !('0' <= c <= '9')
    ensures DigitsValue(s) == None
  {
    var front, last := s[..|s| - 1], s[|s| - 1];
    assert s == front + [last];
    if c != last {
      NonDigitHasNoValue(front, c);
    }
  }

  /** No token, an empty one and one with anything but digits after an optional plus sign all ask for page one. */
  lemma {:induction false} OddTokenAsksForFirstPage(s: string, c: char)
    requires s == "" || (c in s[1..] && !('0' <= c <= '9')) || (s[0] != '+' && !('0' <= s[0] <= '9'))
    ensures PageOf(None) == 1 && PageOf(Some(s)) == 1
  {
    if s != "" {
      var digits := if s[0] == '+' then s[1..] else s;
      assert s == [s[0]] + s[1..];
      NonDigitHasNoValue(digits, if c in s[1..] && !('0' <= c <= '9') then c else s[0]);
    }
  }

  /** A `u32` increment, which wraps round in a release build. */
  function NextPage(page: nat): nat {
    if page + 1 == U32_LIMIT then 0 else page + 1
  }

  /** The token after a full page leads to the following page as long as the list has fewer than 2^32 pages. */
  lemma {:induction false} NextTokenIsNextPage(teams: seq<Team>, page: nat)
    requires |teams| / 100 + 1 < U32_LIMIT && page * 100 <= |teams|
    ensures ParsePage(Print(NextPage(page))) == Some(page + 1)
  {
    TokenRoundTrip(page + 1);
  }

  /** The loop of `list_groups` over the teams of one page. */
  method ConvertTeams(served: seq<Team>, keep: string -> bool) returns (groups: seq<Group>)
    ensures groups == Wanted(served, keep)
  {
    groups := [];
    for i := 0 to |served|
      invariant groups == Wanted(served[..i], keep)
    {
      assert served[..i + 1][..i] == served[..i];
      if keep(served[i].name) {
        groups := groups + [ToGroup(served[i])];
      }
    }
    assert served[..|served|] == served;
  }

  /** One page; the team filter does not influence whether there is a next page. */
  method ListGroups(teams: seq<Team>, keep: string -> bool, token: Option<string>) returns (r: GroupPage)
    ensures r.groups == Wanted(ServedPage(teams, PageOf(token)), keep)
    ensures Selects(ServedPage(teams, PageOf(token)), ByName(keep), ToGroup, r.groups)
    ensures r.nextToken == if |ServedPage(teams, PageOf(token))| >= 100 then Some(Print(NextPage(PageOf(token)))) else None
  {
    var page := PageOf(token);
    var served := ServedPage(teams, page);
    var groups := ConvertTeams(served, keep);
    WantedSelects(served, keep);
    r := GroupPage(groups, if |served| >= 100 then Some(Print(NextPage(page))) else None);
  }

  /**
   The paging loop of `run_github_sync`: for a fixed team list it terminates and returns exactly
   the wanted groups, in order, after |teams| / 100 + 1 requests.
   */
  method FetchAllGroups(teams: seq<Team>, keep: string -> bool) returns (all: seq<Group>, requests: nat)
    requires |teams| / 100 + 1 < U32_LIMIT
    ensures all == Wanted(teams, keep)
    ensures Selects(teams, ByName(keep), ToGroup, all)
    ensures requests == |teams| / 100 + 1
  {
    WantedSelects(teams, keep);
    all, requests := [], 0;
    var token: Option<string> := None;
    while true
      invariant PageOf(token) == requests + 1
      invariant requests * 100 <= |teams|
      invariant all == Wanted(teams[..requests * 100], keep)
      decreases |teams| - requests * 100
    {
      ghost var done := requests * 100;
      ghost var served := ServedPage(teams, requests + 1);
      var page := ListGroups(teams, keep, token);
      all := all + page.groups;
      requests := requests + 1;
      WantedAppends(teams[..done], served, keep);
      PageContinues(teams, requests);
      token := page.nextToken;
      if token.None? {
        break;
      }
      NextTokenIsNextPage(teams, requests);
    }
  }

  // --------------------------------------------------- parents survive the listing

  /** The parent the API reported, as far as a description can carry it. */
  function ReportedParent(t: Team): Option<string> {
    if t.parent.Some? && t.parent.value != "" then t.parent else None
  }

  /**
   The hierarchy step recovers the reported parent of a team, except for a top-level team whose
   own free-text description happens to read "parent:" followed by something.
   */
  lemma {:induction false} ParentSurvivesListing(t: Team)
    ensures ToGroup(t).id == t.slug && ToGroup(t).name == t.name
    ensures ParentSlug(ToGroup(t)) == ReportedParent(t) <==>
            !(t.parent.None? && t.description.Some? && StartsWith(t.description.value, PARENT_PREFIX)
              && |t.description.value| > |PARENT_PREFIX|)
  {
    if t.parent.Some? {
      var d := PARENT_PREFIX + t.parent.value;
      assert d[|PARENT_PREFIX|..] == t.parent.value;
    }
  }

  /** A failing input: a top-level team that merely says so becomes a child of platform. */
  lemma {:induction false} DescriptionTakenForParent()
    ensures var t := Team("docs", "Docs", Some("parent:platform"), None);
            ReportedParent(t) == None && ParentSlug(ToGroup(t)) == Some("platform")
  {
    assert "parent:platform" == PARENT_PREFIX + "platform";
    assert (PARENT_PREFIX + "platform")[|PARENT_PREFIX|..] == "platform";
  }
}
