/**
 The company browser of the Industry Insights page: a static company table,
 a case-insensitive search over name and industry, and a detail view that is
 opened from the visible list and closed with "Back to Companies".
 */
module IndustryInsights {
  import opened Wrappers
  import opened Text

  /** A company row (logo and employee-count strings left out). */
  datatype Company = Company(
    id: string,
    name: string,
    industry: string,
    locations: seq<string>,
    openings: nat)

  const Companies: seq<Company> := [
    Company("google", "Google", "Technology", ["Mountain View", "New York", "London"], 1200),
    Company("amazon", "Amazon", "E-commerce & Cloud", ["Seattle", "Worldwide"], 5000),
    Company("meta", "Meta", "Social Media", ["Menlo Park", "Remote"], 800),
    Company("microsoft", "Microsoft", "Technology", ["Redmond", "Global"], 2500),
    Company("apple", "Apple", "Consumer Electronics", ["Cupertino", "Worldwide"], 1500),
    Company("tcs", "TCS", "IT Services", ["Mumbai", "Global"], 3000),
    Company("infosys", "Infosys", "IT Consulting", ["Bangalore", "Worldwide"], 2000),
    Company("netflix", "Netflix", "Entertainment", ["Los Gatos", "Remote"], 150)
  ]

  /** Every company lists a location and no two share an id. */
  predicate WellFormedTable(cs: seq<Company>) {
    && (forall i :: 0 <= i < |cs| ==> |cs[i].locations| > 0)
    && (forall i, j :: 0 <= i < j < |cs| ==> cs[i].id != cs[j].id)
  }

  lemma CompaniesWellFormed()
    ensures WellFormedTable(Companies)
  {
  }

  /** The search predicate: the lowered query occurs in the lowered name or
      in the lowered industry. */
  predicate Matches(c: Company, query: string): (b: bool)
    ensures b <==> ((exists i :: OccursAt(Lower(c.name), Lower(query), i))
                    || (exists i :: OccursAt(Lower(c.industry), Lower(query), i)))
  {
    IncludesIffOccurs(Lower(c.name), Lower(query));
    IncludesIffOccurs(Lower(c.industry), Lower(query));
    var q := Lower(query);
    Includes(Lower(c.name), q) || Includes(Lower(c.industry), q)
  }

  /** `companies.filter(...)`: the matching companies, in table order. The
      contract pins the result down only for a table without repeated rows
      (for `[c, c]` it also admits `[c]`); `Companies` has none, as
      `CompaniesWellFormed` shows through the distinct ids. */
  function Filter(cs: seq<Company>, query: string): (r: seq<Company>)
    ensures forall c :: c in r <==> c in cs && Matches(c, query)
    ensures forall i :: 0 <= i < |r| ==> Matches(r[i], query)
    ensures IsSubsequence(r, cs)
    decreases |cs|
  {
    if |cs| == 0 then []
    else if Matches(cs[0], query) then [cs[0]] + Filter(cs[1..], query)
    else Filter(cs[1..], query)
  }

  /** The empty query keeps every company. */
  lemma {:induction false} EmptyQueryKeepsAll(cs: seq<Company>)
    ensures Filter(cs, "") == cs
    decreases |cs|
  {
    if |cs| > 0 {
      IncludesEmpty(Lower(cs[0].name));
      EmptyQueryKeepsAll(cs[1..]);
    }
  }

  /** Queries that agree once lowered give the same result. */
  lemma {:induction false} CaseInsensitive(cs: seq<Company>, q1: string, q2: string)
    requires Lower(q1) == Lower(q2)
    ensures Filter(cs, q1) == Filter(cs, q2)
    decreases |cs|
  {
    if |cs| > 0 {
      assert Matches(cs[0], q1) == Matches(cs[0], q2);
      CaseInsensitive(cs[1..], q1, q2);
    }
  }

  /** A query `q` and its ASCII-lowered form select the same companies. */
  lemma LowerQuerySameResult(cs: seq<Company>, q: string)
    ensures Filter(cs, Lower(q)) == Filter(cs, q)
  {
    LowerIdempotent(q);
    CaseInsensitive(cs, Lower(q), q);
  }

  /** Narrowing: when every company matching `q2` also matches `q1`, the
      result for `q2` is a sub-sequence of the result for `q1`. */
  lemma {:induction false} FilterNarrows(cs: seq<Company>, q1: string, q2: string)
    requires forall c :: Matches(c, q2) ==> Matches(c, q1)
    ensures IsSubsequence(Filter(cs, q2), Filter(cs, q1))
    decreases |cs|
  {
    if |cs| > 0 {
      var r1, r2 := Filter(cs[1..], q1), Filter(cs[1..], q2);
      FilterNarrows(cs[1..], q1, q2);
      if Matches(cs[0], q2) {
        assert ([cs[0]] + r2)[1..] == r2;
        assert ([cs[0]] + r1)[1..] == r1;
      } else if Matches(cs[0], q1) {
        assert ([cs[0]] + r1)[1..] == r1;
      }
    }
  }

  /** Typing more: if the lowered `q1` occurs in the lowered `q2`, the result
      for `q2` is a sub-sequence of the result for `q1`. */
  lemma LongerQueryNarrows(cs: seq<Company>, q1: string, q2: string)
    requires Includes(Lower(q2), Lower(q1))
    ensures IsSubsequence(Filter(cs, q2), Filter(cs, q1))
  {
    forall c | Matches(c, q2)
      ensures Matches(c, q1)
    {
      if Includes(Lower(c.name), Lower(q2)) {
        IncludesTransitive(Lower(c.name), Lower(q2), Lower(q1));
      } else {
        IncludesTransitive(Lower(c.industry), Lower(q2), Lower(q1));
      }
    }
    FilterNarrows(cs, q1, q2);
  }

  /** The same for a query that literally extends another. */
  lemma ExtendedQueryNarrows(cs: seq<Company>, q1: string, q2: string)
    requires Includes(q2, q1)
    ensures IsSubsequence(Filter(cs, q2), Filter(cs, q1))
  {
    IncludesLower(q2, q1);
    LongerQueryNarrows(cs, q1, q2);
  }

  /** The page's two state variables. */
  datatype View = View(searchQuery: string, selectedCompany: Option<Company>)

  const InitialView: View := View("", None)

  /** The cards shown in the list view. */
  function Visible(v: View): seq<Company> {
    Filter(Companies, v.searchQuery)
  }

  /** On a fresh page every company is listed. */
  lemma InitialShowsAll()
    ensures Visible(InitialView) == Companies
  {
    EmptyQueryKeepsAll(Companies);
  }

  /** Typing in the search box, which is shown only in the list view. */
  function TypeQuery(v: View, q: string): (w: View)
    requires v.selectedCompany.None?
    ensures w.searchQuery == q && w.selectedCompany.None?
  {
    v.(searchQuery := q)
  }

  /** Clicking a card: the cards are exactly the table rows that match the
      query. */
  function OpenCompany(v: View, c: Company): (w: View)
    requires v.selectedCompany.None?
    requires c in Companies && Matches(c, v.searchQuery)
    ensures w.selectedCompany == Some(c) && w.searchQuery == v.searchQuery
    ensures c in Visible(v)
  {
    v.(selectedCompany := Some(c))
  }

  /** "Back to Companies". */
  function Back(v: View): (w: View)
    requires v.selectedCompany.Some?
    ensures w.selectedCompany.None? && w.searchQuery == v.searchQuery
  {
    v.(selectedCompany := None)
  }

  /** Opening a card and going back returns to the very same list view. */
  lemma BackAfterOpen(v: View, c: Company)
    requires v.selectedCompany.None? && c in Companies && Matches(c, v.searchQuery)
    ensures Back(OpenCompany(v, c)) == v
    ensures Visible(Back(OpenCompany(v, c))) == Visible(v)
  {
  }

  /** A company open in the detail view is always a row of the table. */
  predicate ViewInv(v: View) {
    v.selectedCompany.Some? ==> v.selectedCompany.value in Companies
  }

  datatype ViewEvent = Type(query: string) | Open(company: Company) | GoBack

  /** The search box and the cards exist only in the list view, the back
      button only in the detail view; a card can be opened exactly when it
      is on the visible list. */
  predicate ViewEnabled(v: View, e: ViewEvent): (b: bool)
    ensures e.Open? ==> (b <==> v.selectedCompany.None? && e.company in Visible(v))
    ensures e.Type? ==> (b <==> v.selectedCompany.None?)
    ensures e.GoBack? ==> (b <==> v.selectedCompany.Some?)
  {
    match e
    case Type(_) => v.selectedCompany.None?
    case Open(c) => v.selectedCompany.None? && c in Companies && Matches(c, v.searchQuery)
    case GoBack => v.selectedCompany.Some?
  }

  function ViewStep(v: View, e: ViewEvent): View
    requires ViewEnabled(v, e)
  {
    match e
    case Type(q) => TypeQuery(v, q)
    case Open(c) => OpenCompany(v, c)
    case GoBack => Back(v)
  }

  lemma ViewStepPreservesInv(v: View, e: ViewEvent)
    requires ViewInv(v) && ViewEnabled(v, e)
    ensures ViewInv(ViewStep(v, e))
  {
  }

  /** Every action of `es` is enabled in the view it meets. */
  predicate ViewValidTrace(v: View, es: seq<ViewEvent>)
    decreases |es|
  {
    |es| == 0 || (ViewEnabled(v, es[0]) && ViewValidTrace(ViewStep(v, es[0]), es[1..]))
  }

  function ViewRun(v: View, es: seq<ViewEvent>): View
    requires ViewValidTrace(v, es)
    decreases |es|
  {
    if |es| == 0 then v else ViewRun(ViewStep(v, es[0]), es[1..])
  }

  lemma {:induction false} ViewRunPreservesInv(v: View, es: seq<ViewEvent>)
    requires ViewInv(v) && ViewValidTrace(v, es)
    ensures ViewInv(ViewRun(v, es))
    decreases |es|
  {
    if |es| > 0 {
      ViewStepPreservesInv(v, es[0]);
      ViewRunPreservesInv(ViewStep(v, es[0]), es[1..]);
    }
  }

  /** One job of the sample openings list. */
  datatype Opening = Opening(title: string, location: string, salary: string)

  /** The four sample openings of the detail view; the first, second and
      fourth are placed in the company's first listed location, the third is
      remote. */
  function SampleOpenings(c: Company): (r: seq<Opening>)
    requires |c.locations| > 0
    ensures |r| == 4
    ensures r[0].location == r[1].location == r[3].location == c.locations[0]
    ensures r[2].location == "Remote"
  {
    [ Opening("Senior Software Engineer", c.locations[0], "$150k-$200k"),
      Opening("Product Manager", c.locations[0], "$130k-$180k"),
      Opening("UX Designer", "Remote", "$120k-$160k"),
      Opening("Data Scientist", c.locations[0], "$140k-$190k") ]
  }

  /** From a fresh page, under any sequence of actions, the detail view can
      read `locations[0]` of the open company. */
  lemma OpenCompanyHasLocation(es: seq<ViewEvent>)
    requires ViewValidTrace(InitialView, es)
    ensures var v := ViewRun(InitialView, es);
      v.selectedCompany.Some? ==> |v.selectedCompany.value.locations| > 0
  {
    ViewRunPreservesInv(InitialView, es);
    CompaniesWellFormed();
  }
}
