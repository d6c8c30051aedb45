/**
 The SpaceX launch-records dashboard: the launch table loaded at start-up,
 the values derived from it once (payload bounds, the site dropdown), and the
 datasets the two chart callbacks hand to the charting library — the pie
 breakdown for a site selection and the payload/outcome scatter for a site
 selection and a payload range.

 The table is a parameter of every function: it is read once and never
 changed, so each callback is a function of the table and its inputs.
 */
module Dashboard {
  import opened Frame

  /** One row of the launch table. `outcome` is the `class` column: 1 success, 0 failure. */
  datatype LaunchRecord = LaunchRecord(site: string, payload: int, booster: string, outcome: int)

  type Table = seq<LaunchRecord>

  /** The dropdown value that selects every site. */
  const AllSites: string := "ALL"

  function SiteOf(r: LaunchRecord): string { r.site }

  function PayloadOf(r: LaunchRecord): int { r.payload }

  function OutcomeOf(r: LaunchRecord): int { r.outcome }

  /** The `class` column holds only 0 and 1. */
  predicate BinaryOutcomes(t: Table)
  {
    forall r :: r in t ==> r.outcome == 0 || r.outcome == 1
  }

  /** The `Launch Site` column. */
  function Sites(t: Table): seq<string>
  {
    Column(t, SiteOf)
  }

  // ---------------------------------------------------------------------
  // Values derived once, when the table is loaded
  // ---------------------------------------------------------------------

  /** The smallest payload; `None` for an empty table, where the library gives NaN. */
  function MinPayload(t: Table): (r: Option<int>)
    ensures r.None? <==> t == []
    ensures r.Some? ==> (exists x :: x in t && x.payload == r.value) && forall x :: x in t ==> r.value <= x.payload
  {
    ColumnMembership(t, PayloadOf);
    Min(Column(t, PayloadOf))
  }

  /** The largest payload; `None` for an empty table, where the library gives NaN. */
  function MaxPayload(t: Table): (r: Option<int>)
    ensures r.None? <==> t == []
    ensures r.Some? ==> (exists x :: x in t && x.payload == r.value) && forall x :: x in t ==> x.payload <= r.value
  {
    ColumnMembership(t, PayloadOf);
    Max(Column(t, PayloadOf))
  }

  /** The range slider's initial value: from the smallest to the largest payload. */
  function DefaultPayloadRange(t: Table): (r: Option<(int, int)>)
    ensures r.Some? <==> t != []
    ensures r.Some? ==> forall x :: x in t ==> r.value.0 <= x.payload <= r.value.1
    ensures r.Some? ==> (exists x :: x in t && x.payload == r.value.0) && (exists x :: x in t && x.payload == r.value.1)
  {
    match (MinPayload(t), MaxPayload(t))
    case (Some(lo), Some(hi)) => Some((lo, hi))
    case _ => None
  }

  /** The launch sites of the table, each once, in order of first appearance. */
  function LaunchSites(t: Table): (sites: seq<string>)
    ensures forall s :: s in sites <==> s in Sites(t)
    ensures forall i, j :: 0 <= i < j < |sites| ==> sites[i] != sites[j]
    ensures forall i, j {:trigger FirstIndex(Sites(t), sites[i]), FirstIndex(Sites(t), sites[j])} ::
      0 <= i < j < |sites| ==> FirstIndex(Sites(t), sites[i]) < FirstIndex(Sites(t), sites[j])
  {
    Unique(Sites(t))
  }

  /** One entry of the site dropdown. */
  datatype DropdownOption = DropdownOption(caption: string, value: string)

  function SiteOption(site: string): DropdownOption
  {
    DropdownOption(site, site)
  }

  /** The dropdown's options: "All Sites" first, then one entry per launch site. */
  function DropdownOptions(t: Table): (opts: seq<DropdownOption>)
    ensures |opts| >= 1 && opts[0] == DropdownOption("All Sites", AllSites)
    ensures forall k :: 1 <= k < |opts| ==> opts[k].caption == opts[k].value && opts[k].value in Sites(t)
    ensures forall s :: s in Sites(t) ==> exists k :: 1 <= k < |opts| && opts[k].value == s
    ensures forall j, k :: 1 <= j < k < |opts| ==>
      FirstIndex(Sites(t), opts[j].value) < FirstIndex(Sites(t), opts[k].value)
  {
    var sites := LaunchSites(t);
    var rest := Column(sites, SiteOption);
    var opts := [DropdownOption("All Sites", AllSites)] + rest;
    forall k | 1 <= k < |opts|
      ensures opts[k] == SiteOption(sites[k - 1])
    {
      assert opts[k] == rest[k - 1];
    }
    forall s | s in Sites(t)
      ensures exists k :: 1 <= k < |opts| && opts[k].value == s
    {
      var i :| 0 <= i < |sites| && sites[i] == s;
      assert opts[i + 1].value == s;
    }
    forall j, k | 1 <= j < k < |opts|
      ensures FirstIndex(Sites(t), opts[j].value) < FirstIndex(Sites(t), opts[k].value)
    {
      assert opts[j].value == sites[j - 1] && opts[k].value == sites[k - 1];
    }
    opts
  }

  // ---------------------------------------------------------------------
  // The pie-chart callback
  // ---------------------------------------------------------------------

  /** The dataset the pie chart is drawn from. */
  datatype PieData =
    | SuccessesBySite(bySite: map<string, int>)   // sum of `class` per site
    | OutcomeCounts(byOutcome: map<int, int>)     // count of each `class` value at one site

  /** The rows at the selected site; `None` (a cleared dropdown) selects none. */
  function AtSite(selected: Option<string>): LaunchRecord -> bool
  {
    (r: LaunchRecord) => selected == Some(r.site)
  }

  /** The `class` column of the rows at the selected site. */
  function OutcomesAt(t: Table, selected: Option<string>): seq<int>
  {
    Column(Filter(t, AtSite(selected)), OutcomeOf)
  }

  /**
   The breakdown drawn for a dropdown value: per-site sums of `class` for
   "ALL", otherwise the counts of each `class` value among that site's rows.
   */
  function PieChart(t: Table, entered: Option<string>): (d: PieData)
    ensures d.SuccessesBySite? <==> entered == Some(AllSites)
    ensures d.SuccessesBySite? ==>
      && (forall s :: s in d.bySite <==> s in Sites(t))
      && (forall s :: s in d.bySite ==> d.bySite[s] == GroupTotal(t, SiteOf, OutcomeOf, s))
    ensures d.OutcomeCounts? ==>
      && (forall c :: c in d.byOutcome <==> c in OutcomesAt(t, entered))
      && (forall c :: c in d.byOutcome ==> d.byOutcome[c] == multiset(OutcomesAt(t, entered))[c] > 0)
  {
    if entered == Some(AllSites) then
      SuccessesBySite(GroupSum(t, SiteOf, OutcomeOf))
    else
      OutcomeCounts(ValueCounts(OutcomesAt(t, entered)))
  }

  /** The rows at `site` whose launch succeeded. */
  function SucceededAt(site: string): LaunchRecord -> bool
  {
    (r: LaunchRecord) => r.site == site && r.outcome == 1
  }

  /** With 0/1 outcomes, the sum of `class` over a site is the number of its successful launches. */
  lemma {:induction false} SiteSumCountsSuccesses(t: Table, site: string)
    requires BinaryOutcomes(t)
    ensures GroupTotal(t, SiteOf, OutcomeOf, site) == |Filter(t, SucceededAt(site))|
  {
    if t != [] {
      var init, x := t[..|t| - 1], t[|t| - 1];
      assert t == init + [x];
      assert x in t;
      assert forall r :: r in init ==> r in t;
      SiteSumCountsSuccesses(init, site);
    }
  }

  /** With 0/1 outcomes, the sum of the whole `class` column is the number of successful launches. */
  lemma {:induction false} TotalCountsSuccesses(t: Table)
    requires BinaryOutcomes(t)
    ensures Total(t, OutcomeOf) == |Filter(t, HasKey(OutcomeOf, 1))|
  {
    if t != [] {
      var init, x := t[..|t| - 1], t[|t| - 1];
      assert t == init + [x];
      assert x in t;
      assert forall r :: r in init ==> r in t;
      TotalCountsSuccesses(init);
    }
  }

  /**
   For "ALL": one slice per distinct site, each the number of successful
   launches there, and the slices add up to all successful launches.
   */
  lemma {:induction false} PieAllSites(t: Table)
    requires BinaryOutcomes(t)
    ensures var d := PieChart(t, Some(AllSites));
      && d.SuccessesBySite?
      && (forall s :: s in d.bySite <==> s in LaunchSites(t))
      && (forall s :: s in d.bySite ==> d.bySite[s] == |Filter(t, SucceededAt(s))|)
      && SumOver(LaunchSites(t), d.bySite) == |Filter(t, HasKey(OutcomeOf, 1))|
  {
    forall s | s in Sites(t)
      ensures GroupTotal(t, SiteOf, OutcomeOf, s) == |Filter(t, SucceededAt(s))|
    {
      SiteSumCountsSuccesses(t, s);
    }
    GroupSumTotal(t, SiteOf, OutcomeOf);
    TotalCountsSuccesses(t);
  }

  /** The rows at the selected site with the given outcome. */
  function AtSiteWithOutcome(selected: Option<string>, c: int): LaunchRecord -> bool
  {
    (r: LaunchRecord) => selected == Some(r.site) && r.outcome == c
  }

  lemma {:induction false} OutcomesAtCount(t: Table, selected: Option<string>, c: int)
    ensures multiset(OutcomesAt(t, selected))[c] == |Filter(t, AtSiteWithOutcome(selected, c))|
  {
    if t != [] {
      var init, x := t[..|t| - 1], t[|t| - 1];
      OutcomesAtCount(init, selected, c);
      var f0 := Filter(init, AtSite(selected));
      if AtSite(selected)(x) {
        assert (f0 + [x])[..|f0|] == f0;
        assert Column(f0 + [x], OutcomeOf) == Column(f0, OutcomeOf) + [x.outcome];
      }
    }
  }

  /**
   For a concrete site: one slice per outcome that occurs there (none
   zero-filled), each the number of that site's launches with that outcome,
   and the slices add up to the number of launches at the site.
   */
  lemma {:induction false} PieOneSite(t: Table, entered: Option<string>)
    requires entered != Some(AllSites)
    ensures var d := PieChart(t, entered);
      && d.OutcomeCounts?
      && (forall c :: c in d.byOutcome ==> d.byOutcome[c] == |Filter(t, AtSiteWithOutcome(entered, c))| > 0)
      && SumOver(Unique(OutcomesAt(t, entered)), d.byOutcome) == |Filter(t, AtSite(entered))|
  {
    forall c | c in PieChart(t, entered).byOutcome
      ensures PieChart(t, entered).byOutcome[c] == |Filter(t, AtSiteWithOutcome(entered, c))|
    {
      OutcomesAtCount(t, entered, c);
    }
    ValueCountsTotal(OutcomesAt(t, entered));
  }

  /** A site that has no launches, or a cleared dropdown, gives an empty breakdown rather than an error. */
  lemma {:induction false} PieUnknownSite(t: Table, entered: Option<string>)
    requires entered != Some(AllSites)
    requires entered.None? || entered.value !in Sites(t)
    ensures PieChart(t, entered) == OutcomeCounts(map[])
  {
    ColumnMembership(t, SiteOf);
    FilterKeepsNone(t, AtSite(entered));
  }

  // ---------------------------------------------------------------------
  // The scatter-chart callback
  // ---------------------------------------------------------------------

  /** The rows whose payload lies in `[low, high]`, both ends included. */
  function InPayloadRange(low: int, high: int): LaunchRecord -> bool
  {
    (r: LaunchRecord) => low <= r.payload && r.payload <= high
  }

  /**
   The rows the scatter chart plots: those in the payload range, then, unless
   "ALL" is selected, only those at the selected site.
   */
  function ScatterChart(t: Table, selected: Option<string>, low: int, high: int): (d: Table)
    ensures forall r :: r in d <==>
      r in t && low <= r.payload <= high && (selected == Some(AllSites) || selected == Some(r.site))
    ensures IsSubseq(d, t)
    ensures low > high ==> d == []
  {
    var inRange := Filter(t, InPayloadRange(low, high));
    if selected == Some(AllSites) then inRange
    else
      var atSite := Filter(inRange, AtSite(selected));
      IsSubseqTransitive(atSite, inRange, t);
      atSite
  }

  /** The rows a selection asks for. */
  function Selected(selected: Option<string>, low: int, high: int): LaunchRecord -> bool
  {
    (r: LaunchRecord) => low <= r.payload <= high && (selected == Some(AllSites) || selected == Some(r.site))
  }

  /** Every copy of a selected row is plotted, and nothing else: the plotted rows are exactly the selection. */
  lemma {:induction false} ScatterIsSelection(t: Table, selected: Option<string>, low: int, high: int)
    ensures ScatterChart(t, selected, low, high) == Filter(t, Selected(selected, low, high))
  {
    var inRange := Filter(t, InPayloadRange(low, high));
    if selected == Some(AllSites) {
      FilterSameKeep(t, InPayloadRange(low, high), Selected(selected, low, high));
    } else {
      FilterTwice(t, InPayloadRange(low, high), AtSite(selected), Selected(selected, low, high));
    }
  }

  /** With the slider at its initial range and "ALL" selected, every launch is plotted. */
  lemma {:induction false} ScatterDefaultIsWholeTable(t: Table)
    requires t != []
    ensures var (lo, hi) := DefaultPayloadRange(t).value;
      ScatterChart(t, Some(AllSites), lo, hi) == t
  {
    var (lo, hi) := DefaultPayloadRange(t).value;
    FilterKeepsAll(t, InPayloadRange(lo, hi));
  }

  // ---------------------------------------------------------------------
  // A worked example: three launches at two sites
  // ---------------------------------------------------------------------

  const LightA := LaunchRecord("SiteA", 500, "v1.1", 1)
  const HeavyA := LaunchRecord("SiteA", 1500, "v1.1", 0)
  const LightB := LaunchRecord("SiteB", 800, "FT", 1)

  function ExampleTable(): Table
  {
    [LightA, HeavyA, LightB]
  }

  /** "ALL" gives one success at each site. */
  lemma ExamplePieAllSites()
    ensures PieChart(ExampleTable(), Some(AllSites)) == SuccessesBySite(map["SiteA" := 1, "SiteB" := 1])
  {
    var t1 := [LightA];
    var t2 := t1 + [HeavyA];
    assert ExampleTable() == t2 + [LightB];
    assert GroupSum(t1, SiteOf, OutcomeOf) == map["SiteA" := 1];
    GroupSumSnoc(t1, HeavyA, SiteOf, OutcomeOf);
    GroupSumSnoc(t2, LightB, SiteOf, OutcomeOf);
  }

  lemma {:induction false} ExampleOutcomesAtSiteA()
    ensures OutcomesAt(ExampleTable(), Some("SiteA")) == [1, 0]
  {
    var atA := AtSite(Some("SiteA"));
    var t1 := [LightA];
    var t2 := t1 + [HeavyA];
    assert ExampleTable() == t2 + [LightB];
    assert Filter(t1, atA) == t1;
    FilterSnoc(t1, HeavyA, atA);
    FilterSnoc(t2, LightB, atA);
    assert Column(t1, OutcomeOf) == [1];
    ColumnSnoc(t1, HeavyA, OutcomeOf);
  }

  /** "SiteA" gives one failure and one success. */
  lemma ExamplePieOneSite()
    ensures PieChart(ExampleTable(), Some("SiteA")) == OutcomeCounts(map[0 := 1, 1 := 1])
  {
    ExampleOutcomesAtSiteA();
    var outcomes: seq<int> := [1] + [0];
    assert GroupSum([1], Identity, One) == map[1 := 1];
    GroupSumSnoc([1], 0, Identity, One);
    assert ValueCounts(outcomes) == map[0 := 1, 1 := 1];
  }

  /** The range [0, 1000] plots the two light launches and drops the 1500 kg one. */
  lemma ExampleScatter()
    ensures ScatterChart(ExampleTable(), Some(AllSites), 0, 1000) == [LightA, LightB]
  {
    var inRange := InPayloadRange(0, 1000);
    var t1 := [LightA];
    var t2 := t1 + [HeavyA];
    assert ExampleTable() == t2 + [LightB];
    assert Filter(t1, inRange) == t1;
    FilterSnoc(t1, HeavyA, inRange);
    FilterSnoc(t2, LightB, inRange);
  }
}
