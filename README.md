# godeputy core in Dafny

godeputy crawls the Brazilian Chamber of Deputies' web site, collects each
deputy's spending (salary, office budget and parliamentary quota) and draws a
pie chart of spending per political party. This project models the three
sequential pieces of `main.go` that do the bookkeeping. Each lives in its own module:

- `MoneyText` (`money_text.dfy`) models the text rewriting in `parseFloat`.
  A money string such as `"R$ 1.234,56"` is turned into `"1234.56"`:
  - the first `"R$"` is removed;
  - surrounding spaces are trimmed;
  - the separators are rewritten in one of four branches, depending on whether
    a comma and/or a dot occur.

  These are pure functions. Lemmas cover what each step keeps and what it
  changes: character counts, digit order and the exact output on Brazilian
  amounts. One lemma shows that the rewriting is not idempotent.
- `PartyTally` (`party_tally.dfy`) models `writeDeputies`, the sink that
  receives each flushed batch of deputies. The three package-level
  collections become the fields of the class `Tally`:
  - `deputiesArray`, the list of all deputies;
  - `politicalPartyMap`, each party's list of deputies;
  - `politicalPartyTotalMap`, each party's running total.

  `WriteDeputies` is the Go loop. Its contract gives the new state as a
  function of the old state and the batch, with a lookup of a missing key
  giving Go's zero value. A lemma proves the tally invariant: starting from
  empty collections, the per-party lists partition the deputies, and the
  per-party totals add up to the total of all deputies.
- `PartyChart` (`party_chart.dfy`) models the data half of `writeMapPNG`:
  - the totals map is copied into a list, in the map's iteration order;
  - the list is sorted stably by descending total, on an array;
  - the list is cut into at most ten slices: the nine largest parties keep a
    slice each, and all the others are summed into the tenth.

  A stable descending sort is shown to have only one possible result. The
  slices are shown to add up to the sum of all party totals.

## Model

| member | source | states |
|---|---|---|
| `MoneyText.RemoveSymbol` | main.go:322 | at most one `"R$"` is removed: the length is unchanged or two shorter |
| `MoneyText.RemoveSymbolFirst` | main.go:322 | when the first `"R$"` starts at `i`, the result is the input with exactly those two characters cut out; later occurrences stay |
| `MoneyText.RemoveSymbolAbsent` | main.go:322 | a string without `"R$"` is left unchanged |
| `MoneyText.TrimLeft` | main.go:323 | the result is a suffix of the input; only spaces were dropped; it does not start with a space |
| `MoneyText.TrimRight` | main.go:323 | the result is a prefix of the input; only spaces were dropped; it does not end with a space |
| `MoneyText.Trim` | main.go:323 | no longer than the input; the result is empty or starts and ends with a non-space |
| `MoneyText.TrimParts` | main.go:323 | the trimmed string is a contiguous piece of the input, and everything cut off on either side is spaces |
| `MoneyText.DeleteDots` | main.go:327 | the result holds no dot and is no longer than the input |
| `MoneyText.DeleteDotsCounts` | main.go:327 | deleting dots keeps the count of every other character and drops every dot |
| `MoneyText.DeleteDotsAppend` | main.go:327 | dot deletion works character by character: it distributes over concatenation |
| `MoneyText.DeleteDotsWithoutDots` | main.go:331-332 | a string without dots is left unchanged |
| `MoneyText.FirstIndex` | main.go:328 | the index found holds the character, and no earlier index does |
| `MoneyText.CommaToPoint` | main.go:328 | the length is kept; without a comma nothing changes; otherwise exactly the first comma becomes a dot |
| `MoneyText.CommaToPointCounts` | main.go:328 | replacing the first comma trades one comma for one dot and keeps every other count |
| `MoneyText.CommaToPointAfter` | main.go:328 | in `x + "," + y` with no comma in `x`, the comma between them becomes the dot, and later commas in `y` stay |
| `MoneyText.Stripped` | main.go:322-323 | first `"R$"` removed and outer spaces trimmed: no longer than the input, and empty or starting and ending with a non-space |
| `MoneyText.Separators` | main.go:325-333 | the four-way branch; in every branch: no longer than its input, one dot if a comma was present and none otherwise, one comma fewer than before if any, every other character count unchanged |
| `MoneyText.Normalize` | main.go:321-333 | no longer than the input; at most one dot; a dot remains exactly when the stripped input held a comma |
| `MoneyText.NormalizeKeepsOthers` | main.go:325-333 | in every branch, the characters other than dots and commas keep their order |
| `MoneyText.CommaBetweenDigits` | main.go:329-330 | comma-only digits `a,b` become `a.b` |
| `MoneyText.PointBetweenDigits` | main.go:331-332 | dot-only digits `a.b` become `ab`, because the dot is read as a thousands separator |
| `MoneyText.ThousandsThenDecimal` | main.go:326-328 | with both separators, the thousands dot is deleted and the decimal comma becomes the dot |
| `MoneyText.StrippedAfterSymbol` | main.go:322-323 | `"R$ "` followed by a text that neither starts nor ends with a space strips to that text |
| `MoneyText.NormalizeNotIdempotent` | main.go:325-333 | `a,b` normalises to `a.b`, and normalising again gives `ab`, so the rewriting must run only once |
| `MoneyText.NormalizeBrazilianAmount` | main.go:321-333 | `"R$ a.b,c"` with digit groups normalises to `ab.c` |
| `PartyTally.MembersOfParty` | main.go:200-206 | a party occurs in a batch exactly when its member list is non-empty; all its members belong to it |
| `PartyTally.MembersAppend` | main.go:199-206 | the members of a party in two batches are its members in the first followed by those in the second |
| `PartyTally.PartiesAppend` | main.go:199-206 | the parties in two batches are the union of the parties in each |
| `PartyTally.SumTotalsAppend` | main.go:208 | the total of two batches is the sum of their totals |
| `PartyTally.MembersPartition` | main.go:200-206 | each deputy occurs in its own party's list as often as in the batch, and in no other party's list |
| `PartyTally.ListsStep` | main.go:200-206 | appending one deputy to its party's list (a missing list counts as empty) extends the per-party lists by that deputy |
| `PartyTally.SumsStep` | main.go:208 | adding one deputy's total to its party's total (a missing total counts as 0) extends the per-party totals by that deputy |
| `PartyTally.ListsAfterExtends` | main.go:199-206 | after a batch, the keys are the old keys plus the batch's parties, and each party's list is its old list followed by its batch members in order |
| `PartyTally.SumsAfterExtends` | main.go:208 | after a batch, each party's total is its old total (0 if missing) plus the sum of its batch members' totals |
| `PartyTally.ListsCompose` | main.go:199-206 | writing two batches one after the other extends the lists exactly as writing their concatenation |
| `PartyTally.SumsCompose` | main.go:208 | writing two batches one after the other extends the totals exactly as writing their concatenation |
| `PartyTally.AbsentPartyUnchanged` | main.go:199-208 | a party with no deputy in the batch keeps its list, its total and its presence as a key |
| `PartyTally.ListsExtendUnique` | main.go:199-206 | the per-party lists after a batch are determined by the old lists and the batch |
| `PartyTally.SumsExtendUnique` | main.go:208 | the per-party totals after a batch are determined by the old totals and the batch |
| `PartyTally.ListsAfterCount` | main.go:199-206 | a batch adds exactly its length to the summed lengths of the per-party lists |
| `PartyTally.SumsAfterTotal` | main.go:208 | a batch adds exactly its summed totals to the sum of the per-party totals |
| `PartyTally.MapSumRemove` | main.go:208 | the sum over a map is one entry plus the sum over the rest |
| `PartyTally.MapSumUpdate` | main.go:208 | overwriting one key changes the map's sum by the new value minus the old one (0 if missing) |
| `PartyTally.Tally.constructor` | main.go:62-64 | the three collections start empty, and the tally invariant holds |
| `PartyTally.Tally.WriteDeputies` | main.go:197-210 | all deputies get the batch appended; each party's list grows by its batch members in order; each party's total grows by their totals; parties absent from the batch are untouched; the tally invariant is kept |
| `PartyTally.ValidPartition` | main.go:199-208 | under the invariant, every deputy in party p's list belongs to p; the list lengths add up to the number of deputies; the party totals add up to the total of all deputies |
| `PartyChart.ListOfTotals` | main.go:134-142 | one entry per key of the totals map, in iteration order, holding that key's total |
| `PartyChart.WithoutLastKey` | main.go:134-142 | dropping the last key of an iteration order leaves an iteration order of the smaller map, and the entries built for it |
| `PartyChart.EntriesSum` | main.go:134-142 | the entries' values add up to the sum of the totals map |
| `PartyChart.SumPermutation` | main.go:144-146 | reordering the entries does not change the sum of their values |
| `PartyChart.WithValueAppend` | main.go:144-146 | the run of entries with a given total in two lists is the run in the first followed by the run in the second |
| `PartyChart.SameGroupsPermutation` | main.go:144-146 | when every total's run is the same in two lists, they hold the same entries: the stable sort permutes its input |
| `PartyChart.SwapKeepsGroups` | main.go:144-146 | swapping two neighbours with different totals keeps the order of the entries in every total's run |
| `PartyChart.StableSortUnique` | main.go:144-146 | two descending lists with the same runs for every total are equal: a stable sort has exactly one possible result |
| `PartyChart.InsertLeft` | main.go:144-146 | moving one entry left into a sorted prefix extends the sorted prefix and keeps every total's run in order |
| `PartyChart.SortStable` | main.go:144-146 | the array ends up descending by total, and entries with equal totals keep their relative order |
| `PartyChart.Slices` | main.go:148-177 | up to nine entries give one slice each; beyond that, the first nine are kept and the tenth slice is the sum of the rest; the slices add up to the sum of all values |
| `PartyChart.LumpedAreSmaller` | main.go:151-176 | on a descending list, every one of the nine separate slices is at least as large as any total lumped into the tenth |
| `PartyChart.PieSlices` | main.go:128-177 | the sorted list holds every party exactly once, descending, and parties with equal totals keep the map's iteration order; the slices are bucketed as above and add up to the sum of all party totals |

## Left out

- The crawler packages (worker pool, timed queue, collector, selector) are not part of this model. Neither is `main`, which wires them together with goroutines and a wait group: concurrency is not modelled.
- Fetching pages, matching regular expressions and reading HTTP responses are I/O. They are not modelled.
- Reading and writing JSON files and rendering the PNG chart are I/O. They are not modelled.
- The `Printf` at the start of `writeDeputies` is output only. It is not modelled.
- `strconv.ParseFloat` at the end of `parseFloat` is not modelled. The model stops at the rewritten string that would be handed to it.
- The per-deputy cost fields (salary, office budget, quota and its details) are not modelled. They are folded into the one total the tally and chart read.
- Amounts are whole centavos (`int`) instead of `float64`. Sums are therefore exact, while Go's float sums may round.
- `PartyTally.Tally.WriteDeputies`: sums are exact and do not model float64 rounding.
- `PartyChart.Slices`: sums are exact and do not model float64 rounding.
- `PartyChart.PieSlices`: sums are exact and do not model float64 rounding.
- Chart labels, styles and the division by 1000000 are presentation only. They are not modelled.
- The order of Go map iteration is unspecified, so the model takes it as an input, `order`. `PieSlices` holds for every order.
- Go's `sort.SliceStable` uses insertion sort and symmetric merging. The model sorts by insertion instead. `StableSortUnique` shows that any stable descending sort gives the same result.
- Deputies are held as values, not pointers. Aliasing between the three collections is not captured; no code changes a deputy after it is written.
- Go strings are byte sequences, modelled here as `seq<char>`. All the patterns involved are ASCII, so the difference does not change any result.
