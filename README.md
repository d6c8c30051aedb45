# SpaceX launch-records dashboard: a Dafny model of its data pipeline

The dashboard loads a table of rocket launches once. Each row holds a launch site, a payload mass, a booster version category and an outcome (`class`: 1 for success, 0 for failure). At load time it derives the payload bounds and the site dropdown. Two reactive callbacks then turn the user's selection into chart datasets:

- the **pie callback** (`get_pie_chart`). For the dropdown value `"ALL"` it sums `class` per site. For a single site it counts each `class` value among that site's launches.
- the **scatter callback** (`update_scatter_chart`). It keeps the launches whose payload lies in the slider's closed range. Unless `"ALL"` is selected, it then keeps only those at the selected site.

The model has two modules:

- `frame.dfy`, module `Frame`: the table operations the program borrows from its data-frame library, written as functions over sequences of rows. These are column selection, boolean-mask filtering, column sums, group-by-and-sum, `value_counts`, `unique`, `min` and `max`. Each carries its meaning as a contract, and lemmas connect them. Filtering yields an order-preserving subsequence. A group total is the filtered-then-summed total. The group sums add up to the column sum. The value counts add up to the column length.
- `dashboard.dfy`, module `Dashboard`: the launch record, the load-time values, and the two callbacks as functions of the table and the widget values. Lemmas state what the source promises about them.

The dropdown value is an `Option<string>`. `None` stands for a dropdown the user has cleared. In the source that value falls into the non-`"ALL"` branch of both callbacks and matches no row.

## Model

| member | source | states |
|---|---|---|
| `Frame.Column` | spacex-dash-app.py:15 | a column has one entry per row, in row order, each the row's field value |
| `Frame.ColumnMembership` | spacex-dash-app.py:15 | a value occurs in a column exactly when some row carries it |
| `Frame.Filter` | spacex-dash-app.py:117-118 | a boolean-mask selection holds exactly the rows that pass the mask and is an order-preserving subsequence of the table |
| `Frame.FilterMultiplicity` | spacex-dash-app.py:117-118 | every copy of a passing row is kept, and no failing row is kept |
| `Frame.IsSubseqTransitive` | spacex-dash-app.py:133 | a selection from a selection is still an order-preserving subsequence of the table |
| `Frame.FilterKeepsAll` | spacex-dash-app.py:117-118 | a mask that every row passes returns the table unchanged |
| `Frame.FilterKeepsNone` | spacex-dash-app.py:91 | a mask that no row passes returns an empty table |
| `Frame.FilterSameKeep` | spacex-dash-app.py:120-122 | two masks that agree on every row select the same rows |
| `Frame.FilterTwice` | spacex-dash-app.py:117-133 | filtering by payload range and then by site selects the rows that pass both tests |
| `Frame.GroupTotalIsFilteredTotal` | spacex-dash-app.py:82 | a group's sum equals the sum over the table filtered down to that group |
| `Frame.GroupTotalAbsent` | spacex-dash-app.py:82 | a key that no row carries has a zero group sum |
| `Frame.GroupSum` | spacex-dash-app.py:82 | group-by-sum has one entry per distinct key that occurs, holding the sum of the weight over that key's rows |
| `Frame.GroupsTotalCovering` | spacex-dash-app.py:82 | summing the groups of distinct keys that cover every row gives the column sum |
| `Frame.GroupSumTotal` | spacex-dash-app.py:82 | the group sums, added over the distinct keys, equal the sum of the whole column |
| `Frame.GroupTotalOfOnes` | spacex-dash-app.py:92 | counting a group by summing ones gives the key's multiplicity |
| `Frame.ValueCounts` | spacex-dash-app.py:92 | value counts have an entry exactly for each value present, with no zero entries, holding that value's multiplicity |
| `Frame.ValueCountsTotal` | spacex-dash-app.py:92 | the value counts add up to the length of the column |
| `Frame.FirstIndex` | spacex-dash-app.py:15 | the returned index holds the value, and no earlier index does |
| `Frame.Unique` | spacex-dash-app.py:15 | `unique` lists every value of the column exactly once, in order of first appearance |
| `Frame.Min` | spacex-dash-app.py:12 | the minimum is absent exactly for an empty column; otherwise it occurs in the column and bounds it from below |
| `Frame.Max` | spacex-dash-app.py:11 | the maximum is absent exactly for an empty column; otherwise it occurs in the column and bounds it from above |
| `Dashboard.MinPayload` | spacex-dash-app.py:12 | `min_payload` is some launch's payload and no launch carries less; it is absent only for an empty table |
| `Dashboard.MaxPayload` | spacex-dash-app.py:11 | `max_payload` is some launch's payload and no launch carries more; it is absent only for an empty table |
| `Dashboard.DefaultPayloadRange` | spacex-dash-app.py:66 | the slider's initial range contains every payload, and both of its ends are attained |
| `Dashboard.LaunchSites` | spacex-dash-app.py:15 | `launch_sites` holds each site of the table exactly once, in order of first appearance |
| `Dashboard.DropdownOptions` | spacex-dash-app.py:16-17 | the options start with ("All Sites", "ALL"), then list every site of the table once, labelled by itself, in order of first appearance |
| `Dashboard.PieChart` | spacex-dash-app.py:80-101 | "ALL" gives per-site sums of `class` over exactly the sites in the table; any other value gives the multiplicity of each `class` value present at that site |
| `Dashboard.SiteSumCountsSuccesses` | spacex-dash-app.py:82 | with 0/1 outcomes, a site's sum of `class` is its number of successful launches |
| `Dashboard.TotalCountsSuccesses` | spacex-dash-app.py:82 | with 0/1 outcomes, the sum of `class` over the table is the number of successful launches |
| `Dashboard.PieAllSites` | spacex-dash-app.py:81-89 | for "ALL", the slices are keyed by exactly the distinct sites, each is that site's success count, and they add up to the total number of successes |
| `Dashboard.OutcomesAtCount` | spacex-dash-app.py:91-92 | the multiplicity of an outcome among a site's `class` values is the number of that site's launches with that outcome |
| `Dashboard.PieOneSite` | spacex-dash-app.py:90-100 | for one site, each slice is the positive number of its launches with that outcome, and the slices add up to the number of its launches |
| `Dashboard.PieUnknownSite` | spacex-dash-app.py:91-93 | a site with no launches, or a cleared dropdown, gives an empty breakdown rather than an error |
| `Dashboard.ScatterChart` | spacex-dash-app.py:114-133 | a launch is plotted iff low <= payload <= high and the selection is "ALL" or its site; the result is an order-preserving subsequence of the table and is empty when low > high |
| `Dashboard.ScatterIsSelection` | spacex-dash-app.py:116-133 | range-then-site filtering equals one filter by the whole selection, so every copy of a selected launch is plotted |
| `Dashboard.ScatterDefaultIsWholeTable` | spacex-dash-app.py:66 | with the initial slider range and "ALL", every launch of the table is plotted |
| `Dashboard.ExamplePieAllSites` | spacex-dash-app.py:81-82 | on a three-launch table, "ALL" gives one success at each of its two sites |
| `Dashboard.ExamplePieOneSite` | spacex-dash-app.py:91-93 | on the same table, one site gives one failure and one success |
| `Dashboard.ExampleScatter` | spacex-dash-app.py:116-118 | on the same table, the range [0, 1000] plots the two light launches and drops the 1500 kg one |

## Left out

- Reading the CSV file (spacex-dash-app.py:10) is file I/O. The table is a parameter of every function.
- The Dash application, its layout, the slider's marks and step, and `app.run()` (spacex-dash-app.py:23-72, 148-149) are UI and server plumbing.
- The callback decorators (spacex-dash-app.py:76-79, 107-113) belong to the external reactive framework. The model has one function per callback instead.
- Figure building is a foreign rendering call: `px.pie`, `px.scatter`, colours, titles, hover data and the tick labels (spacex-dash-app.py:83-89, 94-100, 122-144). The model gives the dataset each figure receives. For the scatter that is the whole filtered rows, as the code passes them; the columns the figure reads are not projected out.
- The row order of group-by and `value_counts` results is a library detail the pie chart does not depend on. Both results are maps.
- Payload mass is an integer. The source's floating-point values matter only through `<=` and `>=`. NaN payloads, sites or outcomes are not modelled, so the NaN dropping of group-by and `value_counts` is not modelled either.
- A slider value that is not a two-element list would make the unpacking at spacex-dash-app.py:116 fail. The slider always sends two numbers, so the model takes `low` and `high` as parameters.
- Idempotence needs no lemma: every operation is a function of its arguments.
- Dashboard.ScatterDefaultIsWholeTable: requires a non-empty table. On an empty table `min()` and `max()` give NaN, which the model represents as `None`. The scatter of an empty table is empty whatever the range.
- Dashboard.PieAllSites: requires every `class` value to be 0 or 1, because only then is a sum of `class` a count of successes. `Dashboard.PieChart` states the plain sums without this condition.
