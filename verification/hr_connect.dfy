/** The HR Connect dashboard: the candidate search/filter effect, the demo
    sign-in flag and the choice between the two empty states. */
module HRConnect {
  import opened Text
  import opened Seqs
  import opened Snapshot

  datatype Candidate = Candidate(
    id: int,
    firstName: string,
    lastName: string,
    email: string,
    phone: string,
    location: string,
    experience: string,
    skills: string,
    education: string,
    expectedSalary: string,
    availability: string,
    submittedAt: string)

  /** The three controls of the dashboard: the search box, the experience
      select (whose empty option is "All Experience Levels") and the location box. */
  datatype Query = Query(searchTerm: string, filterExperience: string, filterLocation: string)

  const NoQuery := Query("", "", "")

  /** The free-text search: the term, case-insensitively, in the first name,
      last name, skills or location. */
  predicate MatchesSearch(term: string, c: Candidate) {
    || IncludesIgnoringCase(c.firstName, term)
    || IncludesIgnoringCase(c.lastName, term)
    || IncludesIgnoringCase(c.skills, term)
    || IncludesIgnoringCase(c.location, term)
  }

  /** The experience filter: exact, case-sensitive equality with the bucket. */
  predicate MatchesExperience(bucket: string, c: Candidate) {
    c.experience == bucket
  }

  /** The location filter: the location contains the text, ignoring case. */
  predicate MatchesLocation(text: string, c: Candidate) {
    IncludesIgnoringCase(c.location, text)
  }

  function SearchStage(term: string): Candidate -> bool {
    c => MatchesSearch(term, c)
  }

  function ExperienceStage(bucket: string): Candidate -> bool {
    c => MatchesExperience(bucket, c)
  }

  function LocationStage(text: string): Candidate -> bool {
    c => MatchesLocation(text, c)
  }

  /** The filter effect: each control that is non-empty (truthy) adds one
      `Array.filter` pass over the result of the previous one. */
  function FilterCandidates(candidates: seq<Candidate>, q: Query): (r: seq<Candidate>)
    ensures |r| <= |candidates|
    ensures forall c | c in r :: c in candidates
  {
    var afterSearch :=
      if q.searchTerm != "" then Filter(SearchStage(q.searchTerm), candidates) else candidates;
    var afterExperience :=
      if q.filterExperience != "" then Filter(ExperienceStage(q.filterExperience), afterSearch) else afterSearch;
    if q.filterLocation != "" then Filter(LocationStage(q.filterLocation), afterExperience) else afterExperience
  }

  /** Reference definition of the match rule: every control is either empty
      or satisfied. */
  predicate Admits(q: Query, c: Candidate) {
    && (q.searchTerm == "" || MatchesSearch(q.searchTerm, c))
    && (q.filterExperience == "" || MatchesExperience(q.filterExperience, c))
    && (q.filterLocation == "" || MatchesLocation(q.filterLocation, c))
  }

  function AdmitsFn(q: Query): Candidate -> bool {
    c => Admits(q, c)
  }

  /** An inactive control filters nothing; an active one is its own stage. */
  lemma StageOrSkip(active: bool, stage: Candidate -> bool, s: seq<Candidate>)
    ensures (if active then Filter(stage, s) else s) ==
            Filter((c: Candidate) => !active || stage(c), s)
  {
    if active {
      FilterAgree(stage, (c: Candidate) => !active || stage(c), s);
    } else {
      FilterKeepsAll((c: Candidate) => !active || stage(c), s);
    }
  }

  /** The three passes are one pass by the conjunction of the active predicates. */
  lemma FilterIsSinglePass(candidates: seq<Candidate>, q: Query)
    ensures FilterCandidates(candidates, q) == Filter(AdmitsFn(q), candidates)
  {
    var p1 := (c: Candidate) => q.searchTerm == "" || SearchStage(q.searchTerm)(c);
    var p2 := (c: Candidate) => q.filterExperience == "" || ExperienceStage(q.filterExperience)(c);
    var p3 := (c: Candidate) => q.filterLocation == "" || LocationStage(q.filterLocation)(c);
    var p12 := (c: Candidate) => p1(c) && p2(c);
    StageOrSkip(q.searchTerm != "", SearchStage(q.searchTerm), candidates);
    var s1 := Filter(p1, candidates);
    StageOrSkip(q.filterExperience != "", ExperienceStage(q.filterExperience), s1);
    var s2 := Filter(p2, s1);
    StageOrSkip(q.filterLocation != "", LocationStage(q.filterLocation), s2);
    FilterFuse(p1, p2, p12, candidates);
    FilterFuse(p12, p3, AdmitsFn(q), candidates);
  }

  /** The filtered list is an order-preserving subsequence of the candidates,
      holds exactly the candidates the query admits, and keeps every copy of
      each of them. */
  lemma FilterSpec(candidates: seq<Candidate>, q: Query)
    ensures IsSubsequence(FilterCandidates(candidates, q), candidates)
    ensures forall c :: c in FilterCandidates(candidates, q) <==> c in candidates && Admits(q, c)
    ensures forall c :: multiset(FilterCandidates(candidates, q))[c] ==
                        if Admits(q, c) then multiset(candidates)[c] else 0
  {
    FilterIsSinglePass(candidates, q);
    FilterIsSubsequence(AdmitsFn(q), candidates);
    forall c: Candidate
      ensures multiset(FilterCandidates(candidates, q))[c] ==
              if Admits(q, c) then multiset(candidates)[c] else 0
    {
      FilterMultiplicity(AdmitsFn(q), candidates, c);
    }
  }

  /** With every control empty the list is the candidates, unchanged. */
  lemma EmptyQueryKeepsAll(candidates: seq<Candidate>)
    ensures FilterCandidates(candidates, NoQuery) == candidates
  {
  }

  /** With a search term, every kept candidate has the lower-cased term in the
      lower-cased first name, last name, skills or location. */
  lemma SearchSound(candidates: seq<Candidate>, q: Query, c: Candidate)
    requires q.searchTerm != ""
    requires c in FilterCandidates(candidates, q)
    ensures || Includes(Lower(c.firstName), Lower(q.searchTerm))
            || Includes(Lower(c.lastName), Lower(q.searchTerm))
            || Includes(Lower(c.skills), Lower(q.searchTerm))
            || Includes(Lower(c.location), Lower(q.searchTerm))
  {
    FilterSpec(candidates, q);
  }

  /** With an experience bucket, every kept candidate's bucket is that exact
      string; the comparison does not fold case. */
  lemma ExperienceSound(candidates: seq<Candidate>, q: Query, c: Candidate)
    requires q.filterExperience != ""
    requires c in FilterCandidates(candidates, q)
    ensures c.experience == q.filterExperience
  {
    FilterSpec(candidates, q);
  }

  /** With a location text, every kept candidate's lower-cased location
      contains the lower-cased text. */
  lemma LocationSound(candidates: seq<Candidate>, q: Query, c: Candidate)
    requires q.filterLocation != ""
    requires c in FilterCandidates(candidates, q)
    ensures Includes(Lower(c.location), Lower(q.filterLocation))
  {
    FilterSpec(candidates, q);
  }

  /** Every candidate that meets every active control is in the list. */
  lemma FilterComplete(candidates: seq<Candidate>, q: Query, c: Candidate)
    requires c in candidates && Admits(q, c)
    ensures c in FilterCandidates(candidates, q)
  {
    FilterSpec(candidates, q);
  }

  /** A candidate whose skills are "Java Backend" is found by the search "java". */
  lemma SearchIgnoresCase()
    ensures MatchesSearch("java",
      Candidate(1, "Asha", "Rao", "a@x.in", "1", "Chennai", "2-5", "Java Backend", "BE", "", "Now", "2024"))
  {
    assert IsPrefix(Lower("java"), Lower("Java Backend"));
  }

  /** The sign-in flag and the `hrLoggedIn` entry of local storage. */
  datatype Session = Session(isLoggedIn: bool, storedFlag: Option<string>)

  /** `handleLogin`: with both fields filled in, sign in and persist the flag;
      otherwise nothing happens. */
  function Login(s: Session, email: string, password: string): (r: Session)
    ensures email != "" && password != "" ==> r.isLoggedIn && r.storedFlag == Some("true")
    ensures email == "" || password == "" ==> r == s
  {
    if email != "" && password != "" then Session(true, Some("true")) else s
  }

  /** The Sign Out button: signed out, flag removed, whatever the state was. */
  function SignOut(s: Session): (r: Session)
    ensures !r.isLoggedIn && r.storedFlag.None?
  {
    Session(false, None)
  }

  /** Mounting the page: signed out, then signed in when the stored flag is
      exactly the string "true". */
  function Mount(storedFlag: Option<string>): (r: Session)
    ensures r.storedFlag == storedFlag
    ensures r.isLoggedIn <==> storedFlag == Some("true")
  {
    Session(storedFlag == Some("true"), storedFlag)
  }

  /** A sign-in survives a reload of the page; a sign-out does too. */
  lemma SessionSurvivesReload(s: Session, email: string, password: string)
    requires email != "" && password != ""
    ensures Mount(Login(s, email, password).storedFlag).isLoggedIn
    ensures !Mount(SignOut(s).storedFlag).isLoggedIn
  {
  }

  /** What the list area shows. */
  datatype Listing =
    | NoProfiles     // "No candidates have submitted profiles yet."
    | NoMatches      // "Try adjusting your search criteria."
    | Profiles(shown: seq<Candidate>)

  const NoProfilesMessage := "No candidates have submitted profiles yet."
  const NoMatchesMessage := "Try adjusting your search criteria."

  /** The rendered list: the cards when the filtered list is non-empty,
      otherwise one of the two empty-state messages. */
  function ListingFor(candidates: seq<Candidate>, filtered: seq<Candidate>): (r: Listing)
    ensures r.Profiles? <==> |filtered| > 0
    ensures r.Profiles? ==> r.shown == filtered
  {
    if |filtered| > 0 then Profiles(filtered)
    else if |candidates| == 0 then NoProfiles
    else NoMatches
  }

  /** The text shown for a listing; cards carry no message. */
  function Message(l: Listing): string {
    match l
    case NoProfiles => NoProfilesMessage
    case NoMatches => NoMatchesMessage
    case Profiles(_) => ""
  }

  /** For the dashboard's own filtered list, "nothing submitted" is shown
      exactly when there are no candidates at all, and "try adjusting" exactly
      when there are candidates but the query admits none of them. */
  lemma EmptyStatesDistinct(candidates: seq<Candidate>, q: Query)
    ensures ListingFor(candidates, FilterCandidates(candidates, q)).NoProfiles? <==> |candidates| == 0
    ensures ListingFor(candidates, FilterCandidates(candidates, q)).NoMatches? <==>
              |candidates| > 0 && forall c :: c in candidates ==> !Admits(q, c)
    ensures Message(ListingFor(candidates, FilterCandidates(candidates, q))) == NoProfilesMessage <==>
              |candidates| == 0
  {
    FilterSpec(candidates, q);
    var f := FilterCandidates(candidates, q);
    if |f| > 0 {
      assert f[0] in f;
    }
  }

  /** Loading the stored candidates: the list and the filtered list are both
      the stored array, which is what the filter gives for the empty query,
      so a non-empty store shows every stored card. */
  lemma LoadShowsAll(saved: seq<Candidate>)
    ensures |saved| > 0 ==> ListingFor(saved, FilterCandidates(saved, NoQuery)) == Profiles(saved)
  {
  }
}
